// The bytes of the meta page and of the free-list chain, and what opening an image makes of them.
module StoreFormat {
  import opened Bytes
  import opened Outcomes
  import opened PageLayout

  const VERSION := 1
  const NO_PAGE: PageId := 0
  const META_PAGE: PageId := 0
  const CHUNK_PAGES: u32 := 16
  const MAX_PAGES: u32 := 0xFFFF_FFFF

  const OFF_MAGIC := 16
  const OFF_VERSION := 24
  const OFF_PAGE_SIZE := 28
  const OFF_ROOT := 32
  const OFF_FREE_LIST := 36
  const OFF_FREE_COUNT := 40
  const OFF_NEXT_PAGE := 44
  const OFF_FILE_PAGES := 48
  const OFF_CHECKPOINT := 52
  const META_END := 56

  const OFF_LIST_NEXT := 16
  const LIST_HEADER := 20
  const CAPACITY := 1019

  // The eight magic bytes, "SCUTEDB" and a NUL, as two big-endian words.
  const MAGIC_HIGH: u32 := 0x5343_5554
  const MAGIC_LOW: u32 := 0x4544_4200

  datatype Meta = Meta(
    version: u32,
    pageSize: u32,
    root: PageId,
    freeList: PageId,
    freeCount: u32,
    nextPage: PageId,
    filePages: u32,
    checkpoint: u32)

  datatype Recovered = Recovered(meta: Meta, entries: seq<PageId>, lists: seq<PageId>)

  // ---------- the meta page ----------

  function DecodeMeta(p: Page): Result<Meta> {
    if U32At(p, OFF_MAGIC) != MAGIC_HIGH || U32At(p, OFF_MAGIC + 4) != MAGIC_LOW then Err(NotScuteDB)
    else if U32At(p, OFF_VERSION) != VERSION then Err(BadVersion)
    else if U32At(p, OFF_PAGE_SIZE) != SIZE then Err(BadPageSize)
    else if Kind(p) != KIND_META then Err(Corrupt)
    else if Id(p) != META_PAGE then Err(Corrupt)
    else Ok(Meta(U32At(p, OFF_VERSION), U32At(p, OFF_PAGE_SIZE), U32At(p, OFF_ROOT), U32At(p, OFF_FREE_LIST),
                 U32At(p, OFF_FREE_COUNT), U32At(p, OFF_NEXT_PAGE), U32At(p, OFF_FILE_PAGES),
                 U32At(p, OFF_CHECKPOINT)))
  }

  function MetaFields(m: Meta): seq<u32> {
    [MAGIC_HIGH, MAGIC_LOW, m.version, m.pageSize, m.root, m.freeList, m.freeCount, m.nextPage, m.filePages,
     m.checkpoint]
  }

  function EncodeMeta(m: Meta): Page {
    PutU16(Framed(PutU32s(ZeroPage(), OFF_MAGIC, MetaFields(m)), META_PAGE, KIND_META), OFF_FREE_START, META_END)
  }

  lemma MetaFieldAt(m: Meta, j: nat)
    requires j < 10
    ensures U32At(EncodeMeta(m), OFF_MAGIC + 4 * j) == MetaFields(m)[j]
  {
    hide PutU16, PutU32, U16At;
    var body := PutU32s(ZeroPage(), OFF_MAGIC, MetaFields(m));
    var q := EncodeMeta(m);
    assert forall i :: HEADER_SIZE <= i < SIZE ==> q[i] == body[i];
    SameWord(q, body, OFF_MAGIC + 4 * j);
  }

  lemma SameWord(q: Page, p: Page, off: nat)
    requires HEADER_SIZE <= off && off + 4 <= SIZE && forall i :: HEADER_SIZE <= i < SIZE ==> q[i] == p[i]
    ensures U32At(q, off) == U32At(p, off)
  {
  }

  // A meta of this build survives the trip to bytes and back, and no two metas share their bytes.
  lemma MetaRoundTrip(m: Meta)
    requires m.version == VERSION && m.pageSize == SIZE
    ensures DecodeMeta(EncodeMeta(m)) == Ok(m)
  {
    hide EncodeMeta, U32At;
    MetaHeader(m);
    MetaFieldAt(m, 0);
    MetaFieldAt(m, 1);
    MetaFieldAt(m, 2);
    MetaFieldAt(m, 3);
    MetaFieldAt(m, 4);
    MetaFieldAt(m, 5);
    MetaFieldAt(m, 6);
    MetaFieldAt(m, 7);
    MetaFieldAt(m, 8);
    MetaFieldAt(m, 9);
  }

  lemma MetaHeader(m: Meta)
    ensures var q := EncodeMeta(m);
            && Id(q) == META_PAGE && Kind(q) == KIND_META && q[5] == 0 && ItemCount(q) == 0
            && U16At(q, OFF_FREE_START) == META_END && U16At(q, OFF_FREE_END) == SIZE
            && forall i :: 12 <= i < 16 || META_END <= i < SIZE ==> q[i] == 0
  {
    hide PutU16, PutU32, PutU32s;
  }

  lemma ZeroPageIsNoMeta()
    ensures DecodeMeta(ZeroPage()).Err?
  {
    assert U32At(ZeroPage(), OFF_MAGIC) == 0;
  }

  // ---------- free-list pages ----------

  function ListNext(p: Page): PageId { U32At(p, OFF_LIST_NEXT) }

  function ListEntries(p: Page): (s: seq<PageId>)
    requires ItemCount(p) <= CAPACITY
    ensures |s| == ItemCount(p)
  {
    seq(ItemCount(p), i requires 0 <= i < ItemCount(p) => U32At(p, LIST_HEADER + 4 * i))
  }

  predicate IsListPage(p: Page, id: PageId) {
    Kind(p) == KIND_FREE_LIST && Id(p) == id && ItemCount(p) <= CAPACITY
  }

  function EncodeList(id: PageId, next: PageId, chunk: seq<PageId>): Page
    requires |chunk| <= CAPACITY
  {
    var p1 := PutU32(NewPage(id, KIND_FREE_LIST), OFF_LIST_NEXT, next);
    var p2 := PutU32s(p1, LIST_HEADER, chunk);
    var p3 := PutU16(p2, OFF_ITEM_COUNT, |chunk|);
    PutU16(p3, OFF_FREE_START, LIST_HEADER + 4 * |chunk|)
  }

  lemma ListRoundTrip(id: PageId, next: PageId, chunk: seq<PageId>)
    requires |chunk| <= CAPACITY
    ensures IsListPage(EncodeList(id, next, chunk), id)
    ensures ListNext(EncodeList(id, next, chunk)) == next
    ensures ListEntries(EncodeList(id, next, chunk)) == chunk
  {
    hide PutU16, PutU32, PutU32s;
    var p1 := PutU32(NewPage(id, KIND_FREE_LIST), OFF_LIST_NEXT, next);
    var p2 := PutU32s(p1, LIST_HEADER, chunk);
    var q := EncodeList(id, next, chunk);
    assert forall i :: LIST_HEADER <= i < SIZE ==> q[i] == p2[i];
    forall j | 0 <= j < |chunk|
      ensures U32At(q, LIST_HEADER + 4 * j) == chunk[j]
    {
      SameWord(q, p2, LIST_HEADER + 4 * j);
    }
  }
}
