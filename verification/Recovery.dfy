// Opening an image, as a function of its bytes: decode page 0, check it, walk the free-list chain, check the
// free set. Beside it, what it means for pages to spell a chain, and that the walk finds exactly that.
module Recovery {
  import opened Bytes
  import opened Outcomes
  import opened PageLayout
  import opened SimulatedDisk
  import opened StoreFormat

  // The ids a store with this high-water mark has handed out.
  ghost function HandedOut(next: PageId): (ids: set<PageId>)
    ensures forall id :: id in ids <==> 1 <= id < next
    ensures |ids| == if next == 0 then 0 else next - 1
    decreases next
  {
    if next <= 1 then {}
    else
      var below := HandedOut(next - 1);
      assert next - 1 !in below;
      below + {next - 1}
  }

  ghost predicate Distinct(ids: seq<PageId>) {
    forall i, j :: 0 <= i < j < |ids| ==> ids[i] != ids[j]
  }

  ghost predicate Within(ids: seq<PageId>, next: PageId) {
    forall i :: 0 <= i < |ids| ==> 1 <= ids[i] < next
  }

  function PageCount(img: Image): u32 {
    if |img| > MAX_PAGES then MAX_PAGES else |img|
  }

  predicate MetaOk(m: Meta, onDisk: int) {
    && m.nextPage != 0
    && m.nextPage <= m.filePages
    && m.filePages <= onDisk
    && (m.root == NO_PAGE || m.root < m.nextPage)
  }

  // The entries and the list pages from id on, given the list pages already met on the way there.
  function ReadChain(img: Image, next: PageId, id: PageId, seen: set<PageId>): Result<(seq<PageId>, seq<PageId>)>
    requires next <= |img|
    decreases HandedOut(next) - seen
  {
    if id == NO_PAGE then Ok(([], []))
    else if id >= next then Err(Corrupt)
    else if id in seen then Err(Corrupt)
    else
      var p := img[id];
      if !IsListPage(p, id) then Err(Corrupt)
      else
        var rest :- ReadChain(img, next, ListNext(p), seen + {id});
        Ok((ListEntries(p) + rest.0, [id] + rest.1))
  }

  // The count the meta page carries has 32 bits, and so has the number it is compared with.
  function ReadFreeList(img: Image, m: Meta): Result<(seq<PageId>, seq<PageId>)>
    requires m.nextPage <= |img|
  {
    var found :- ReadChain(img, m.nextPage, m.freeList, {});
    if |found.0| % TWO_TO_THE_32 != m.freeCount then Err(Corrupt) else Ok(found)
  }

  ghost predicate FreeSetOk(m: Meta, entries: seq<PageId>, lists: seq<PageId>) {
    && (m.root != NO_PAGE ==> m.root !in lists)
    && Within(entries, m.nextPage)
    && (forall i :: 0 <= i < |entries| ==> entries[i] !in lists && entries[i] != m.root)
    && Distinct(entries)
  }

  ghost function Recover(img: Image): Result<Recovered> {
    if img == [] then Err(Io)
    else
      var m :- DecodeMeta(img[0]);
      RecoverFrom(img, m)
  }

  ghost function RecoverFrom(img: Image, m: Meta): Result<Recovered> {
    if !MetaOk(m, PageCount(img)) then Err(Corrupt)
    else
      var found :- ReadFreeList(img, m);
      if !FreeSetOk(m, found.0, found.1) then Err(Corrupt) else Ok(Recovered(m, found.0, found.1))
  }

  // Only zero pages, and no more than the first chunk of them: a store whose creation was cut short.
  predicate IsBlank(img: Image) {
    |img| <= CHUNK_PAGES && forall i :: 0 <= i < |img| ==> img[i] == ZeroPage()
  }

  // ---------- what the pages of a chain say ----------

  type Pages = map<PageId, Page>

  // The list pages in order, each naming the next one, carrying the entries between them.
  ghost predicate Chain(pages: Pages, head: PageId, lists: seq<PageId>, entries: seq<PageId>)
    decreases |lists|
  {
    if lists == [] then head == NO_PAGE && entries == []
    else
      && head == lists[0]
      && head in pages
      && IsListPage(pages[head], head)
      && ListEntries(pages[head]) <= entries
      && Chain(pages, ListNext(pages[head]), lists[1..], entries[|ListEntries(pages[head])|..])
  }

  ghost predicate Shows(img: Image, pages: Pages) {
    forall id :: id in pages ==> id < |img| && img[id] == pages[id]
  }

  // Whatever the pages spell, the walk returns it: same entries, same list pages, same order.
  lemma {:induction false} ChainIsRead(img: Image, next: PageId, pages: Pages, head: PageId, lists: seq<PageId>,
                                       entries: seq<PageId>, seen: set<PageId>)
    requires next <= |img|
    requires Shows(img, pages)
    requires Chain(pages, head, lists, entries)
    requires Distinct(lists) && Within(lists, next)
    requires forall i :: 0 <= i < |lists| ==> lists[i] !in seen
    ensures ReadChain(img, next, head, seen) == Ok((entries, lists))
    decreases |lists|
  {
    if lists != [] {
      var chunk := ListEntries(pages[head]);
      ChainIsRead(img, next, pages, ListNext(pages[head]), lists[1..], entries[|chunk|..], seen + {head});
      assert entries == chunk + entries[|chunk|..];
      assert lists == [head] + lists[1..];
    }
  }

  ghost function PagesOf(img: Image, ids: set<PageId>): (pages: Pages)
    requires forall id :: id in ids ==> id < |img|
    ensures Shows(img, pages) && pages.Keys == ids
  {
    map id | id in ids :: img[id]
  }

  function IdSet(ids: seq<PageId>): set<PageId> {
    set id | id in ids
  }

  lemma ChainCons(pages: Pages, head: PageId, lists: seq<PageId>, entries: seq<PageId>)
    requires head in pages && IsListPage(pages[head], head)
    requires Chain(pages, ListNext(pages[head]), lists, entries)
    ensures Chain(pages, head, [head] + lists, ListEntries(pages[head]) + entries)
  {
    var all := ListEntries(pages[head]) + entries;
    assert ([head] + lists)[1..] == lists;
    assert all[|ListEntries(pages[head])|..] == entries;
  }

  lemma Prepend(head: PageId, lists: seq<PageId>, next: PageId, seen: set<PageId>)
    requires 1 <= head < next && head !in seen
    requires Distinct(lists) && Within(lists, next)
    requires forall i :: 0 <= i < |lists| ==> lists[i] !in seen + {head}
    ensures Distinct([head] + lists) && Within([head] + lists, next)
    ensures forall i :: 0 <= i < |[head] + lists| ==> ([head] + lists)[i] !in seen
  {
  }

  // Conversely, what the walk returns is what the pages spell, and it never meets a page twice.
  lemma {:induction false} ReadIsChain(img: Image, next: PageId, pages: Pages, head: PageId, lists: seq<PageId>,
                                       entries: seq<PageId>, seen: set<PageId>)
    requires next <= |img|
    requires ReadChain(img, next, head, seen) == Ok((entries, lists))
    requires forall id :: 1 <= id < next ==> id in pages && pages[id] == img[id]
    ensures Chain(pages, head, lists, entries)
    ensures Distinct(lists) && Within(lists, next)
    ensures forall i :: 0 <= i < |lists| ==> lists[i] !in seen
    decreases HandedOut(next) - seen
  {
    if head != NO_PAGE {
      var rest := ReadChain(img, next, ListNext(img[head]), seen + {head}).value;
      ReadIsChain(img, next, pages, ListNext(img[head]), rest.1, rest.0, seen + {head});
      ChainCons(pages, head, rest.1, rest.0);
      Prepend(head, rest.1, next, seen);
    }
  }

  // Chains only look at their own list pages.
  lemma {:induction false} ChainFrame(pages: Pages, pages': Pages, head: PageId, lists: seq<PageId>,
                                      entries: seq<PageId>)
    requires Chain(pages, head, lists, entries)
    requires forall id :: id in lists ==> id in pages && id in pages' && pages'[id] == pages[id]
    ensures Chain(pages', head, lists, entries)
    decreases |lists|
  {
    if lists != [] {
      ChainFrame(pages, pages', ListNext(pages[head]), lists[1..], entries[|ListEntries(pages[head])|..]);
    }
  }

  // ---------- counting ----------

  lemma {:induction false} DistinctFit(ids: seq<PageId>, next: PageId)
    requires Distinct(ids) && Within(ids, next)
    ensures |ids| == |IdSet(ids)|
    ensures next > 0 ==> |ids| < next
  {
    DistinctCount(ids);
    if next > 0 {
      SubsetCount(IdSet(ids), HandedOut(next));
    }
  }

  lemma {:induction false} DistinctCount(ids: seq<PageId>)
    requires Distinct(ids)
    ensures |ids| == |IdSet(ids)|
  {
    if ids != [] {
      var n := |ids| - 1;
      DistinctCount(ids[..n]);
      assert IdSet(ids) == IdSet(ids[..n]) + {ids[n]};
    }
  }

  lemma {:induction false} SubsetCount<T>(a: set<T>, b: set<T>)
    requires a <= b
    ensures |a| <= |b|
  {
    assert b == a + (b - a);
  }

  // The count check compares 32-bit truncations, and still an accepted list has exactly the counted entries:
  // distinct ids below 2^32 cannot be 2^32 many.
  lemma FreeCountIsExact(img: Image, m: Meta, r: Recovered)
    requires RecoverFrom(img, m) == Ok(r)
    ensures |r.entries| == m.freeCount
  {
    DistinctFit(r.entries, m.nextPage);
  }

  // ---------- which images open ----------

  // Page 0 is a meta page with sensible counts, the list pages from there on spell the free list, each of them and of
  // the pages listed is one handed out and occurs once, and the root is none of them.
  ghost predicate Spells(img: Image, r: Recovered) {
    && img != [] && DecodeMeta(img[0]) == Ok(r.meta)
    && 1 <= r.meta.nextPage <= r.meta.filePages <= |img| && (r.meta.root == 0 || r.meta.root < r.meta.nextPage)
    && |r.entries| == r.meta.freeCount
    && Chain(PagesOf(img, HandedOut(r.meta.nextPage)), r.meta.freeList, r.lists, r.entries)
    && Distinct(r.lists + r.entries) && Within(r.lists + r.entries, r.meta.nextPage)
    && r.meta.root !in r.lists + r.entries
  }

  // These are the images that open.
  lemma RecoverMeans(img: Image, r: Recovered)
    ensures Recover(img) == Ok(r) <==> Spells(img, r)
  {
    if Spells(img, r) {
      SpelledIsRecovered(img, r);
    }
    if Recover(img) == Ok(r) {
      RecoveredIsSpelled(img, r);
    }
  }

  lemma SpelledIsRecovered(img: Image, r: Recovered)
    requires Spells(img, r)
    ensures Recover(img) == Ok(r)
  {
    hide DecodeMeta, Chain, Distinct, Within, ReadChain, HandedOut, PagesOf, Shows;
    var m := r.meta;
    JoinMeans(r.lists, r.entries, m.nextPage);
    NoneIsRoot(m, r.entries, r.lists);
    ChainIsWalked(img, m, r.lists, r.entries);
  }

  lemma ChainIsWalked(img: Image, m: Meta, lists: seq<PageId>, entries: seq<PageId>)
    requires m.nextPage <= |img| && Distinct(lists) && Within(lists, m.nextPage)
    requires Chain(PagesOf(img, HandedOut(m.nextPage)), m.freeList, lists, entries)
    ensures ReadChain(img, m.nextPage, m.freeList, {}) == Ok((entries, lists))
  {
    hide Chain, Distinct, Within;
    ChainIsRead(img, m.nextPage, PagesOf(img, HandedOut(m.nextPage)), m.freeList, lists, entries, {});
  }

  lemma RecoveredIsSpelled(img: Image, r: Recovered)
    requires Recover(img) == Ok(r)
    ensures Spells(img, r)
  {
    hide DecodeMeta, Chain, Distinct, Within, ReadChain, HandedOut, PagesOf;
    var m := r.meta;
    FreeCountIsExact(img, m, r);
    ReadIsChain(img, m.nextPage, PagesOf(img, HandedOut(m.nextPage)), m.freeList, r.lists, r.entries, {});
    JoinMeans(r.lists, r.entries, m.nextPage);
    NoneIsRoot(m, r.entries, r.lists);
  }

  lemma JoinMeans(a: seq<PageId>, b: seq<PageId>, next: PageId)
    ensures Within(a + b, next) <==> Within(a, next) && Within(b, next)
    ensures Distinct(a + b) <==> Distinct(a) && Distinct(b) && forall i :: 0 <= i < |b| ==> b[i] !in a
  {
    var c := a + b;
    if Within(c, next) {
      assert forall i :: 0 <= i < |a| ==> a[i] == c[i];
      assert forall i :: 0 <= i < |b| ==> b[i] == c[|a| + i];
    }
    if Distinct(c) {
      assert forall i :: 0 <= i < |a| ==> a[i] == c[i];
      assert forall i :: 0 <= i < |b| ==> b[i] == c[|a| + i];
    }
  }

  lemma NoneIsRoot(m: Meta, entries: seq<PageId>, lists: seq<PageId>)
    requires Within(entries, m.nextPage) && Within(lists, m.nextPage)
    ensures (m.root != NO_PAGE ==> m.root !in lists) && (forall i :: 0 <= i < |entries| ==> entries[i] != m.root) <==>
            m.root !in lists + entries
  {
  }

  // What is rejected is rejected by its page 0, with the error that has, or as corrupt.
  lemma RejectedMeans(img: Image)
    requires Recover(img).Err?
    ensures Recover(img).error ==
            if img == [] then Io else if DecodeMeta(img[0]).Err? then DecodeMeta(img[0]).error else Corrupt
  {
    hide DecodeMeta;
    if img != [] && DecodeMeta(img[0]).Ok? && MetaOk(DecodeMeta(img[0]).value, PageCount(img)) {
      var m := DecodeMeta(img[0]).value;
      WalkFails(img, m.nextPage, m.freeList, {});
    }
  }

  lemma {:induction false} WalkFails(img: Image, next: PageId, id: PageId, seen: set<PageId>)
    requires next <= |img|
    ensures ReadChain(img, next, id, seen).Err? ==> ReadChain(img, next, id, seen).error == Corrupt
    decreases HandedOut(next) - seen
  {
    if id != NO_PAGE && id < next && id !in seen && IsListPage(img[id], id) {
      WalkFails(img, next, ListNext(img[id]), seen + {id});
    }
  }

  // A file whose creation was cut short has at most sixteen pages, and nothing but zeros in them.
  lemma BlankMeans(img: Image)
    ensures IsBlank(img) <==>
            |img| <= 16 && forall i, j :: 0 <= i < |img| && 0 <= j < 4096 ==> img[i][j] == 0
  {
    if forall i, j :: 0 <= i < |img| && 0 <= j < 4096 ==> img[i][j] == 0 {
      forall i | 0 <= i < |img|
        ensures img[i] == ZeroPage()
      {
      }
    }
  }
}
