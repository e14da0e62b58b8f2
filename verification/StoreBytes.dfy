// The bytes of the store's own pages, spelled out: every offset and every constant as it is on disk, multi-byte numbers
// with the high byte first. This is what other builds of the program read and write.
module StoreBytes {
  import opened Bytes
  import opened Outcomes
  import opened PageLayout
  import opened StoreFormat
  import opened KeyOrder

  lemma TwoBytes(p: seq<byte>, off: nat)
    requires off + 2 <= |p|
    ensures p[off..off + 2] == BigEndian(U16At(p, off), 2)
  {
    var v := U16At(p, off);
    assert BigEndian(v, 2) == BigEndian(v / 256, 1) + [v % 256];
    assert BigEndian(v / 256, 1) == [] + [v / 256 % 256];
  }

  lemma FourBytes(p: seq<byte>, off: nat)
    requires off + 4 <= |p|
    ensures p[off..off + 4] == BigEndian(U32At(p, off), 4)
  {
    hide BigEndian, U16At;
    var v := U32At(p, off);
    TwoBytes(p, off);
    TwoBytes(p, off + 2);
    BigEndianHalves(v);
    assert p[off..off + 4] == p[off..off + 2] + p[off + 2..off + 4];
  }

  lemma BigEndianHalves(v: u32)
    ensures BigEndian(v, 4) == BigEndian(v / 0x1_0000, 2) + BigEndian(v % 0x1_0000, 2)
  {
    var w := v / 256;
    assert BigEndian(v, 4) == BigEndian(w, 3) + [v % 256];
    assert BigEndian(w, 3) == BigEndian(w / 256, 2) + [w % 256];
    assert w / 256 == v / 0x1_0000;
    var x := v % 0x1_0000;
    assert BigEndian(x, 2) == BigEndian(x / 256, 1) + [x % 256];
    assert BigEndian(x / 256, 1) == [] + [x / 256 % 256];
    assert x / 256 == w % 256 && x % 256 == v % 256;
  }

  // A field is read as v exactly if its bytes are those of v.
  lemma ReadsAs(p: seq<byte>, off: nat, v: u32)
    requires off + 4 <= |p|
    ensures U32At(p, off) == v <==> p[off..off + 4] == BigEndian(v, 4)
  {
    FourBytes(p, off);
    assert Pow256(4) == 256 * (256 * (256 * 256));
    BigEndianOrder(U32At(p, off), v, 4);
  }

  lemma ReadsAs16(p: seq<byte>, off: nat, v: u16)
    requires off + 2 <= |p|
    ensures U16At(p, off) == v <==> p[off..off + 2] == BigEndian(v, 2)
  {
    TwoBytes(p, off);
    assert Pow256(2) == 256 * 256;
    BigEndianOrder(U16At(p, off), v, 2);
  }

  // "SCUTEDB" and a NUL.
  const MAGIC: seq<byte> := [0x53, 0x43, 0x55, 0x54, 0x45, 0x44, 0x42, 0]

  lemma SmallNumbers()
    ensures BigEndian(0, 2) == [0, 0] && BigEndian(0, 4) == [0, 0, 0, 0]
    ensures BigEndian(16, 2) == [0, 16] && BigEndian(56, 2) == [0, 56] && BigEndian(4096, 2) == [16, 0]
    ensures BigEndian(1, 4) == [0, 0, 0, 1] && BigEndian(4096, 4) == [0, 0, 16, 0]
  {
  }

  lemma MagicNumbers()
    ensures BigEndian(MAGIC_HIGH, 4) == MAGIC[..4] && BigEndian(MAGIC_LOW, 4) == MAGIC[4..]
  {
    hide BigEndian;
    BigEndianHalves(MAGIC_HIGH);
    BigEndianHalves(MAGIC_LOW);
    Letters();
  }

  lemma Letters()
    ensures BigEndian(0x5343, 2) == [0x53, 0x43] && BigEndian(0x5554, 2) == [0x55, 0x54]
    ensures BigEndian(0x4544, 2) == [0x45, 0x44] && BigEndian(0x4200, 2) == [0x42, 0]
  {
  }

  // ---------- a new page ----------

  lemma NewPageBytes(id: PageId, kind: byte)
    ensures NewPage(id, kind) == BigEndian(id, 4) + [kind, 0, 0, 0, 0, 16, 16, 0] + Zeros(4084)
  {
    hide BigEndian, U16At, PutU16, PutU32;
    var p := NewPage(id, kind);
    NewPageFields(id, kind);
    SmallNumbers();
    FourBytes(p, 0);
    TwoBytes(p, 6);
    TwoBytes(p, 8);
    TwoBytes(p, 10);
    Pieces(p);
    assert p[12..] == Zeros(4084);
  }

  lemma NewPageFields(id: PageId, kind: byte)
    ensures var p := NewPage(id, kind);
            && U32At(p, 0) == id && p[4] == kind && p[5] == 0
            && U16At(p, 6) == 0 && U16At(p, 8) == 16 && U16At(p, 10) == 4096
            && forall i :: 12 <= i < 4096 ==> p[i] == 0
  {
    hide PutU16, PutU32;
  }

  // The header of any page, field by field.
  lemma Pieces(p: Page)
    ensures p == p[0..4] + [p[4], p[5]] + p[6..8] + p[8..10] + p[10..12] + p[12..]
  {
  }

  // ---------- the meta page ----------

  lemma MetaBytes(m: Meta)
    ensures var p := EncodeMeta(m);
            && p[..16] == [0, 0, 0, 0, 1, 0, 0, 0, 0, 56, 16, 0, 0, 0, 0, 0] && p[16..24] == MAGIC
            && p[24..28] == BigEndian(m.version, 4) && p[28..32] == BigEndian(m.pageSize, 4)
            && p[32..36] == BigEndian(m.root, 4) && p[36..40] == BigEndian(m.freeList, 4)
            && p[40..44] == BigEndian(m.freeCount, 4) && p[44..48] == BigEndian(m.nextPage, 4)
            && p[48..52] == BigEndian(m.filePages, 4) && p[52..56] == BigEndian(m.checkpoint, 4)
            && forall i :: 56 <= i < 4096 ==> p[i] == 0
  {
    hide BigEndian, U16At, U32At, EncodeMeta;
    MetaHead(m);
    SmallNumbers();
    MagicNumbers();
    MetaWord(m, 0, MAGIC_HIGH);
    MetaWord(m, 1, MAGIC_LOW);
    assert EncodeMeta(m)[16..24] == EncodeMeta(m)[16..20] + EncodeMeta(m)[20..24];
    MetaWord(m, 2, m.version);
    MetaWord(m, 3, m.pageSize);
    MetaWord(m, 4, m.root);
    MetaWord(m, 5, m.freeList);
    MetaWord(m, 6, m.freeCount);
    MetaWord(m, 7, m.nextPage);
    MetaWord(m, 8, m.filePages);
    MetaWord(m, 9, m.checkpoint);
  }

  lemma MetaHead(m: Meta)
    ensures EncodeMeta(m)[..16] == [0, 0, 0, 0, 1, 0, 0, 0, 0, 56, 16, 0, 0, 0, 0, 0]
    ensures forall i :: 56 <= i < 4096 ==> EncodeMeta(m)[i] == 0
  {
    hide BigEndian, U16At, U32At, EncodeMeta;
    var p := EncodeMeta(m);
    MetaHeader(m);
    SmallNumbers();
    FourBytes(p, 0);
    TwoBytes(p, 6);
    TwoBytes(p, 8);
    TwoBytes(p, 10);
    assert p[..16] == p[0..4] + [p[4], p[5]] + p[6..8] + p[8..10] + p[10..12] + p[12..16];
  }

  lemma MetaWord(m: Meta, j: nat, v: u32)
    requires j < 10 && MetaFields(m)[j] == v
    ensures EncodeMeta(m)[16 + 4 * j..20 + 4 * j] == BigEndian(v, 4)
  {
    hide EncodeMeta, BigEndian, U32At;
    MetaFieldAt(m, j);
    FourBytes(EncodeMeta(m), 16 + 4 * j);
  }

  // Page 0 of a store just created.
  lemma FirstMetaBytes(m: Meta)
    requires m == Meta(1, 4096, 0, 0, 0, 1, 16, 1)
    ensures EncodeMeta(m)[16..24] == MAGIC
    ensures EncodeMeta(m)[24..40] == [0, 0, 0, 1, 0, 0, 16, 0, 0, 0, 0, 0, 0, 0, 0, 0]
    ensures EncodeMeta(m)[40..56] == [0, 0, 0, 0, 0, 0, 0, 1, 0, 0, 0, 16, 0, 0, 0, 1]
  {
    hide BigEndian, EncodeMeta;
    var p := EncodeMeta(m);
    MetaBytes(m);
    SmallNumbers();
    Sixteen();
    assert p[24..40] == p[24..28] + p[28..32] + p[32..36] + p[36..40];
    assert p[40..56] == p[40..44] + p[44..48] + p[48..52] + p[52..56];
  }

  lemma Sixteen()
    ensures BigEndian(16, 4) == [0, 0, 0, 16]
  {
  }

  // What decoding makes of any page 0: the first check that fails says which error it is, and what passes them all is
  // read field by field.
  lemma DecodeMeans(p: Page)
    ensures DecodeMeta(p) == Err(NotScuteDB) <==> p[16..24] != MAGIC
    ensures DecodeMeta(p) == Err(BadVersion) <==> p[16..24] == MAGIC && p[24..28] != [0, 0, 0, 1]
    ensures DecodeMeta(p) == Err(BadPageSize) <==>
            p[16..24] == MAGIC && p[24..28] == [0, 0, 0, 1] && p[28..32] != [0, 0, 16, 0]
    ensures DecodeMeta(p) == Err(Corrupt) <==>
            && p[16..24] == MAGIC && p[24..28] == [0, 0, 0, 1] && p[28..32] == [0, 0, 16, 0]
            && (p[4] != 1 || p[0..4] != [0, 0, 0, 0])
    ensures DecodeMeta(p).Ok? ==>
              var m := DecodeMeta(p).value;
              && p[32..36] == BigEndian(m.root, 4) && p[36..40] == BigEndian(m.freeList, 4)
              && p[40..44] == BigEndian(m.freeCount, 4) && p[44..48] == BigEndian(m.nextPage, 4)
              && p[48..52] == BigEndian(m.filePages, 4) && p[52..56] == BigEndian(m.checkpoint, 4)
              && m.version == 1 && m.pageSize == 4096
    ensures DecodeMeta(p).Err? ==> DecodeMeta(p).error in {NotScuteDB, BadVersion, BadPageSize, Corrupt}
  {
    hide BigEndian, U32At;
    SmallNumbers();
    MagicNumbers();
    ReadsAs(p, 16, MAGIC_HIGH);
    ReadsAs(p, 20, MAGIC_LOW);
    ReadsAs(p, 24, 1);
    ReadsAs(p, 28, 4096);
    ReadsAs(p, 0, 0);
    assert p[16..24] == p[16..20] + p[20..24] && MAGIC == MAGIC[..4] + MAGIC[4..];
    assert p[16..24] == MAGIC ==> p[16..20] == p[16..24][..4] && p[20..24] == p[16..24][4..];
    FourBytes(p, 32);
    FourBytes(p, 36);
    FourBytes(p, 40);
    FourBytes(p, 44);
    FourBytes(p, 48);
    FourBytes(p, 52);
  }

  // ---------- free-list pages ----------

  lemma ListBytes(id: PageId, next: PageId, chunk: seq<PageId>)
    requires |chunk| <= CAPACITY
    ensures var p, n := EncodeList(id, next, chunk), |chunk|;
            && n <= 1019
            && p[..20] == BigEndian(id, 4) + [5, 0] + BigEndian(n, 2) + BigEndian(20 + 4 * n, 2) + [16, 0, 0, 0, 0, 0]
                          + BigEndian(next, 4)
            && (forall j :: 0 <= j < n ==> p[20 + 4 * j..24 + 4 * j] == BigEndian(chunk[j], 4))
            && forall i :: 20 + 4 * n <= i < 4096 ==> p[i] == 0
  {
    hide BigEndian, U16At, U32At, EncodeList;
    var p, n := EncodeList(id, next, chunk), |chunk|;
    ListFields(id, next, chunk);
    SmallNumbers();
    FourBytes(p, 0);
    TwoBytes(p, 6);
    TwoBytes(p, 8);
    TwoBytes(p, 10);
    FourBytes(p, 16);
    Pieces(p);
    assert p[..20] == p[0..4] + [p[4], p[5]] + p[6..8] + p[8..10] + p[10..12] + p[12..16] + p[16..20];
    assert p[12..16] == [0, 0, 0, 0];
    forall j | 0 <= j < n
      ensures p[20 + 4 * j..24 + 4 * j] == BigEndian(chunk[j], 4)
    {
      FourBytes(p, 20 + 4 * j);
    }
  }

  lemma ListFields(id: PageId, next: PageId, chunk: seq<PageId>)
    requires |chunk| <= CAPACITY
    ensures var p, n := EncodeList(id, next, chunk), |chunk|;
            && U32At(p, 0) == id && p[4] == 5 && p[5] == 0 && U16At(p, 6) == n && U16At(p, 8) == 20 + 4 * n
            && U16At(p, 10) == 4096 && U32At(p, 16) == next
            && (forall j :: 0 <= j < n ==> U32At(p, 20 + 4 * j) == chunk[j])
            && (forall i :: 12 <= i < 16 || 20 + 4 * n <= i < 4096 ==> p[i] == 0)
  {
    hide PutU16, PutU32, PutU32s;
    ListRoundTrip(id, next, chunk);
    NewPageFields(id, KIND_FREE_LIST);
    var p := EncodeList(id, next, chunk);
    forall j | 0 <= j < |chunk|
      ensures U32At(p, 20 + 4 * j) == chunk[j]
    {
      assert ListEntries(p)[j] == U32At(p, LIST_HEADER + 4 * j);
    }
  }

  // A page passes for the list page id exactly if it says so, and claims no more entries than it has room for.
  lemma ListMeans(p: Page, id: PageId)
    ensures IsListPage(p, id) <==> p[4] == 5 && p[0..4] == BigEndian(id, 4) && FromBigEndian(p[6..8]) <= 1019
    ensures IsListPage(p, id) ==>
              && p[16..20] == BigEndian(ListNext(p), 4) && |ListEntries(p)| == FromBigEndian(p[6..8])
              && forall j :: 0 <= j < |ListEntries(p)| ==>
                   p[20 + 4 * j..24 + 4 * j] == BigEndian(ListEntries(p)[j], 4)
  {
    hide BigEndian, U32At, U16At, FromBigEndian;
    ReadsAs(p, 0, id);
    Spells16(p, 6);
    FourBytes(p, 16);
    if IsListPage(p, id) {
      forall j | 0 <= j < |ListEntries(p)|
        ensures p[20 + 4 * j..24 + 4 * j] == BigEndian(ListEntries(p)[j], 4)
      {
        FourBytes(p, 20 + 4 * j);
      }
    }
  }

  lemma Spells16(p: seq<byte>, off: nat)
    requires off + 2 <= |p|
    ensures FromBigEndian(p[off..off + 2]) == U16At(p, off)
  {
    TwoBytes(p, off);
    assert Pow256(2) == 256 * 256;
    BigEndianRoundTrip(U16At(p, off), 2);
  }
}
