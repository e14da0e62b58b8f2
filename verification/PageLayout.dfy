// The fixed 4096-byte page and its 16-byte header (internal/page).
module PageLayout {
  import opened Bytes

  const SIZE := 4096
  const HEADER_SIZE := 16

  const KIND_META := 1
  const KIND_BTREE_LEAF := 3
  const KIND_BTREE_INTERNAL := 4
  const KIND_FREE_LIST := 5

  const OFF_ID := 0
  const OFF_KIND := 4
  const OFF_ITEM_COUNT := 6
  const OFF_FREE_START := 8
  const OFF_FREE_END := 10

  type Page = p: seq<byte> | |p| == SIZE witness Zeros(SIZE)
  type PageId = u32

  function Zeros(n: nat): (z: seq<byte>)
    ensures |z| == n && forall i :: 0 <= i < n ==> z[i] == 0
  {
    seq(n, _ => 0)
  }

  function ZeroPage(): (p: Page)
    ensures forall i :: 0 <= i < SIZE ==> p[i] == 0
  {
    Zeros(SIZE)
  }

  function Id(p: Page): PageId { U32At(p, OFF_ID) }
  function Kind(p: Page): byte { p[OFF_KIND] }
  function ItemCount(p: Page): u16 { U16At(p, OFF_ITEM_COUNT) }

  // p carrying its own id, its kind and an empty data area.
  function Framed(p: Page, id: PageId, kind: byte): (q: Page)
    ensures Id(q) == id && Kind(q) == kind && ItemCount(q) == ItemCount(p)
    ensures forall i :: HEADER_SIZE <= i < SIZE ==> q[i] == p[i]
  {
    var p1 := PutU32(p, OFF_ID, id)[OFF_KIND := kind];
    PutU16(PutU16(p1, OFF_FREE_START, HEADER_SIZE), OFF_FREE_END, SIZE)
  }

  function NewPage(id: PageId, kind: byte): (p: Page)
    ensures Id(p) == id && Kind(p) == kind && ItemCount(p) == 0
  {
    Framed(ZeroPage(), id, kind)
  }
}
