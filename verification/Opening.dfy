// The checks made when a file is opened, and again by Verify: walk the free-list chain, check the free set, compare
// the books with what was read. Each check is a loop over local variables, proved against its declarative meaning.
module Opening {
  import opened Bytes
  import opened Outcomes
  import opened PageLayout
  import opened SimulatedDisk
  import opened StoreFormat
  import opened Recovery
  import opened CommitProtocol
  import opened CrashSafety
  import opened PageFile
  import opened LiveState
  import opened StoreWrites

  // ---------- the free list ----------

  function Prepend(entries: seq<PageId>, lists: seq<PageId>,
                   r: Result<(seq<PageId>, seq<PageId>)>): Result<(seq<PageId>, seq<PageId>)>
  {
    if r.Err? then r else Ok((entries + r.value.0, lists + r.value.1))
  }

  method ReadFreeListPages(file: File, m: Meta) returns (r: Result<(seq<PageId>, seq<PageId>)>)
    requires m.nextPage <= |file.disk.cache|
    modifies file`faults
    ensures if file.faults == old(file.faults) then r == ReadFreeList(file.disk.cache, m) else r == Err(Io)
    ensures file.faults <= old(file.faults) + 1
  {
    hide IsListPage, ListEntries, ListNext;
    var entries: seq<PageId>, lists: seq<PageId> := [], [];
    var seen: set<PageId> := {};
    var id: PageId := m.freeList;
    ghost var img := file.disk.cache;
    ghost var all := ReadChain(img, m.nextPage, m.freeList, {});
    PrependNothing(all);
    while id != NO_PAGE
      invariant all == Prepend(entries, lists, ReadChain(img, m.nextPage, id, seen))
      invariant file.faults == old(file.faults)
      decreases HandedOut(m.nextPage) - seen
    {
      if id >= m.nextPage || id in seen {
        return Err(Corrupt);
      }
      var p := file.Read(id);
      if p.Err? {
        return Err(p.error);
      }
      var page := p.value;
      if !IsListPage(page, id) {
        return Err(Corrupt);
      }
      PrependTwice(entries, lists, ListEntriesOf(page, id), [id],
                   ReadChain(img, m.nextPage, ListNext(page), seen + {id}));
      var chunk := ReadEntries(page, id);
      seen := seen + {id};
      entries := entries + chunk;
      lists := lists + [id];
      id := ListNext(page);
    }
    assert entries + [] == entries && lists + [] == lists;
    if |entries| % TWO_TO_THE_32 != m.freeCount {
      return Err(Corrupt);
    }
    r := Ok((entries, lists));
  }

  ghost function ListEntriesOf(p: Page, id: PageId): seq<PageId>
    requires IsListPage(p, id)
  {
    ListEntries(p)
  }

  // The entries of one list page, read in a loop.
  method ReadEntries(p: Page, ghost id: PageId) returns (chunk: seq<PageId>)
    requires IsListPage(p, id)
    ensures chunk == ListEntriesOf(p, id)
  {
    hide U32At, U16At, Id, Kind;
    chunk := [];
    for i := 0 to ItemCount(p)
      invariant |chunk| == i && forall j :: 0 <= j < i ==> chunk[j] == U32At(p, LIST_HEADER + 4 * j)
    {
      chunk := chunk + [U32At(p, LIST_HEADER + 4 * i)];
    }
  }

  lemma PrependNothing(r: Result<(seq<PageId>, seq<PageId>)>)
    ensures r == Prepend([], [], r)
  {
    if r.Ok? {
      assert [] + r.value.0 == r.value.0 && [] + r.value.1 == r.value.1;
    }
  }

  lemma PrependTwice(e0: seq<PageId>, l0: seq<PageId>, e1: seq<PageId>, l1: seq<PageId>,
                     r: Result<(seq<PageId>, seq<PageId>)>)
    ensures Prepend(e0, l0, Prepend(e1, l1, r)) == Prepend(e0 + e1, l0 + l1, r)
  {
    if r.Ok? {
      assert e0 + (e1 + r.value.0) == (e0 + e1) + r.value.0;
      assert l0 + (l1 + r.value.1) == (l0 + l1) + r.value.1;
    }
  }

  // ---------- the free set ----------

  method CheckFreeSet(m: Meta, entries: seq<PageId>, lists: seq<PageId>) returns (ok: bool)
    ensures ok <==> FreeSetOk(m, entries, lists)
  {
    var seen: set<PageId> := {};
    for i := 0 to |lists|
      invariant seen == IdSet(lists[..i])
      invariant m.root != NO_PAGE ==> m.root !in lists[..i]
    {
      if lists[i] == m.root && m.root != NO_PAGE {
        return false;
      }
      assert lists[..i + 1] == lists[..i] + [lists[i]];
      seen := seen + {lists[i]};
    }
    assert lists[..|lists|] == lists;
    for i := 0 to |entries|
      invariant seen == IdSet(lists) + IdSet(entries[..i])
      invariant Within(entries[..i], m.nextPage) && Distinct(entries[..i])
      invariant forall k :: 0 <= k < i ==> entries[k] !in lists && entries[k] != m.root
    {
      var id := entries[i];
      if id == META_PAGE || id >= m.nextPage || id in seen || id == m.root {
        if id in entries[..i] {
          var k :| 0 <= k < i && entries[k] == id;
        }
        return false;
      }
      assert entries[..i + 1] == entries[..i] + [id];
      seen := seen + {id};
    }
    assert entries[..|entries|] == entries;
    ok := true;
  }

  // ---------- the books ----------

  // The live state is consistent in itself and with the free list read from the file.
  ghost predicate LiveAgrees(l: Live, onDisk: u32, entries: seq<PageId>, lists: seq<PageId>) {
    && Accounted(l)
    && l.durable.nextPage <= l.nextPage && l.filePages <= onDisk
    && l.listPage == lists
    && forall k :: 0 <= k < |l.free| ==> l.free[k] in entries
  }

  // Said by counting: the books balance, have not gone backwards, fit the file, and reuse only what the list on disk
  // has.
  lemma LiveAgreesMeans(l: Live, onDisk: u32, entries: seq<PageId>, lists: seq<PageId>)
    ensures LiveAgrees(l, onDisk, entries, lists) <==>
            && Counted(l) && l.durable.nextPage <= l.nextPage && l.filePages <= onDisk
            && l.listPage == lists && forall id :: id in l.free ==> id in entries
  {
    hide Accounted, Counted;
    AccountedMeans(l);
  }

  // Marks ids as seen with state want, unless one is out of range, was seen before or is marked otherwise.
  method Record(l: Live, ids: seq<PageId>, want: PageState, seen: set<PageId>) returns (ok: bool, seen': set<PageId>)
    ensures ok <==> Listed(l, ids, want) && forall k :: 0 <= k < |ids| ==> ids[k] !in seen
    ensures ok ==> seen' == seen + IdSet(ids)
  {
    seen' := seen;
    for i := 0 to |ids|
      invariant Listed(l, ids[..i], want) && forall k :: 0 <= k < i ==> ids[k] !in seen
      invariant seen' == seen + IdSet(ids[..i])
    {
      var id := ids[i];
      if !InRange(l, id) || id in seen' || !(id in l.status && l.status[id] == want) {
        assert id in ids[..i] ==> !Distinct(ids);
        return false, seen';
      }
      assert ids[..i + 1] == ids[..i] + [id];
      seen' := seen' + {id};
    }
    assert ids[..|ids|] == ids;
    ok := true;
  }

  // Is every marked page on one of the lists? Only looked into when the counts differ.
  method AllSeen(status: map<PageId, PageState>, seen: set<PageId>) returns (ok: bool)
    requires seen <= status.Keys
    ensures ok <==> status.Keys <= seen
  {
    if |seen| != |status| {
      var ids := status.Keys;
      while ids != {}
        invariant forall id :: id in status.Keys && id !in ids ==> id in seen
        decreases ids
      {
        var id :| id in ids;
        if id !in seen {
          return false;
        }
        ids := ids - {id};
      }
      return true;
    }
    SameSizeSubset(seen, status.Keys);
    ok := true;
  }

  lemma SameSizeSubset<T>(a: set<T>, b: set<T>)
    requires a <= b && |a| == |b|
    ensures a == b
  {
    assert b == a + (b - a);
    assert |b - a| == 0;
  }

  method VerifyLive(l: Live, onDisk: u32, entries: seq<PageId>, lists: seq<PageId>) returns (ok: bool)
    requires l.durable.nextPage != 0
    ensures ok <==> LiveAgrees(l, onDisk, entries, lists)
  {
    if l.nextPage < l.durable.nextPage {
      return false;
    }
    if l.nextPage > l.filePages || l.filePages > onDisk {
      return false;
    }
    if l.root != NO_PAGE && !Owned(l, l.root) {
      return false;
    }
    if l.listPage != lists {
      return false;
    }
    var seen: set<PageId> := {};
    ok, seen := Record(l, l.free, Free, seen);
    if !ok {
      return;
    }
    ok, seen := Record(l, l.pending, Pending, seen);
    if !ok {
      return;
    }
    ok, seen := Record(l, l.listPage, FreeListPage, seen);
    if !ok {
      return;
    }
    ok := AllSeen(l.status, seen);
    if !ok {
      return;
    }
    var free: set<PageId> := IdSet(entries);
    for i := 0 to |l.free|
      invariant forall k :: 0 <= k < i ==> l.free[k] in entries
    {
      if l.free[i] !in free {
        return false;
      }
    }
    ok := true;
  }

  // ---------- reading a file ----------

  // All the checks, in order, on what reads show. Nothing is written, and only a failed read keeps them from a verdict.
  method Inspect(file: File) returns (r: Result<Recovered>)
    modifies file`faults
    ensures if file.faults == old(file.faults) then r == Recover(file.disk.cache) else r == Err(Io)
    ensures file.faults <= old(file.faults) + 1
  {
    hide DecodeMeta, RecoverFrom;
    var m := ReadMeta(file);
    if m.Err? {
      return Err(m.error);
    }
    r := CheckFile(file, m.value);
  }

  method ReadMeta(file: File) returns (r: Result<Meta>)
    modifies file`faults
    ensures if file.faults == old(file.faults) then file.disk.cache != [] && r == DecodeMeta(file.disk.cache[0])
            else r == Err(Io)
    ensures file.faults <= old(file.faults) + 1
  {
    var raw := file.Read(META_PAGE);
    r := if raw.Err? then Err(raw.error) else DecodeMeta(raw.value);
  }

  // The checks that follow once page 0 has been decoded.
  method CheckFile(file: File, m: Meta) returns (r: Result<Recovered>)
    modifies file`faults
    ensures if file.faults == old(file.faults) then r == RecoverFrom(file.disk.cache, m) else r == Err(Io)
    ensures file.faults <= old(file.faults) + 1
  {
    hide ReadFreeList, FreeSetOk;
    var onDisk := file.PageCount();
    if onDisk.Err? {
      return Err(onDisk.error);
    }
    if !MetaOk(m, onDisk.value) {
      return Err(Corrupt);
    }
    var found := ReadFreeListPages(file, m);
    if found.Err? {
      return Err(found.error);
    }
    var (entries, lists) := found.value;
    var ok := CheckFreeSet(m, entries, lists);
    if !ok {
      return Err(Corrupt);
    }
    r := Ok(Recovered(m, entries, lists));
  }

  method IsBlankFile(file: File) returns (r: Result<bool>)
    modifies file`faults
    ensures if file.faults == old(file.faults) then r == Ok(IsBlank(file.disk.cache)) else r == Err(Io)
    ensures file.faults <= old(file.faults) + 1
  {
    var size := file.PageCount();
    if size.Err? {
      return Err(size.error);
    }
    if size.value > CHUNK_PAGES {
      return Ok(false);
    }
    for i := 0 to size.value
      invariant forall k :: 0 <= k < i ==> file.disk.cache[k] == ZeroPage()
      invariant file.faults == old(file.faults)
    {
      var p := file.Read(i);
      if p.Err? {
        return Err(p.error);
      }
      if p.value != ZeroPage() {
        return Ok(false);
      }
    }
    r := Ok(true);
  }

  // What was read is one of the two generations the disk may hold.
  lemma FoundGeneration(s: State, m: Meta, r: Recovered) returns (g: Gen)
    requires Inv(s) && s.disk.cache != [] && DecodeMeta(s.disk.cache[0]) == Ok(m)
    requires RecoverFrom(s.disk.cache, m) == Ok(r)
    ensures g == s.current || g == s.coming
    ensures g.Snap? && g.meta == m && g.entries == r.entries && g.lists == r.lists && Head(s.disk.cache, g)
  {
    hide DecodeMeta, RecoverFrom;
    ZeroPageIsNoMeta();
    HeldYields(s);
    g := if Head(s.disk.cache, s.current) then s.current else s.coming;
  }

  lemma RecoverIs(img: Image) returns (m: Meta)
    requires Recover(img).Ok?
    ensures img != [] && DecodeMeta(img[0]) == Ok(m) && RecoverFrom(img, m) == Recover(img)
    ensures m == Recover(img).value.meta && m.version == VERSION && m.pageSize == SIZE
  {
    m := DecodeMeta(img[0]).value;
  }

  // Saying again on page 0 what page 0 may already say hurts neither generation.
  lemma MetaMayBeRewritten(s: State, m: Meta, g: Gen)
    requires Inv(s) && (g == s.current || g == s.coming) && g.Snap? && g.meta == m
    requires m.version == VERSION && m.pageSize == SIZE
    ensures MayWrite(s, PageWrite(META_PAGE, EncodeMeta(m)))
    ensures Forget(s.current, META_PAGE) == s.current && Forget(s.coming, META_PAGE) == s.coming
    ensures HeadPage(EncodeMeta(m), g)
  {
    hide DecodeMeta, EncodeMeta;
    MetaRoundTrip(m);
  }

  lemma RewriteSettles(s: State, w: PageWrite, g: Gen)
    requires (g == s.current || g == s.coming) && g.Snap? && w.id == META_PAGE && HeadPage(w.data, g)
    ensures Settles(s.(disk := Write(s.disk, w)), Synced(Write(s.disk, w)), g)
  {
    hide DecodeMeta;
    WriteSettles(s.disk, w);
  }

  // The books are those of the generation g, the only one left, and every page it vouches for reads back and is on
  // its way to the platter or there.
  ghost predicate Back(l: Live, s: State, g: Gen) {
    && g.Snap? && s.current == s.coming == g
    && l == Reopened(Recovered(g.meta, g.entries, g.lists))
    && forall id: PageId :: id in g.pages ==>
         PageAt(s.disk.cache, id) == g.pages[id] && PageAt(s.disk.Settled(), id) == g.pages[id]
  }

  lemma SettledIsBack(l: Live, s: State, g: Gen)
    requires Inv(s) && s.current == s.coming == g && g.Snap? && s.disk.log == []
    requires l == Reopened(Recovered(g.meta, g.entries, g.lists))
    ensures Back(l, s, g)
  {
    hide DecodeMeta, Chain, Reopened;
    assert s.disk.Settled() == s.disk.durable;
  }

  // The books of a store just opened agree with the generation its open has settled.
  lemma ReopenedIsReady(s: State, g: Gen)
    requires Inv(s) && s.current == s.coming == g && g.Snap? && s.disk.log == []
    ensures Ready(Reopened(Recovered(g.meta, g.entries, g.lists)), s)
    ensures Whole(g) ==> Agreed(Reopened(Recovered(g.meta, g.entries, g.lists)), s)
  {
    hide DecodeMeta, Chain;
    assert s.disk.Settled() == s.disk.durable;
    ReopenedIsAccounted(Recovered(g.meta, g.entries, g.lists));
  }

  // The check of the books, the second of the two layers, never fails on a file that passed the first.
  lemma ReopenedAgrees(s: State, g: Gen)
    requires Inv(s) && (g == s.current || g == s.coming) && g.Snap?
    ensures LiveAgrees(Reopened(Recovered(g.meta, g.entries, g.lists)), Recovery.PageCount(s.disk.cache), g.entries,
                       g.lists)
  {
    hide DecodeMeta, Chain;
    ReopenedIsAccounted(Recovered(g.meta, g.entries, g.lists));
  }

  // Makes the generation read from the cache the one on the platter, and the only one left.
  method SettleMeta(file: File, m: Meta, ghost g: Gen) returns (ok: bool)
    requires file.Valid() && Inv(file.Now()) && (g == file.Now().current || g == file.Now().coming)
    requires g.Snap? && g.meta == m && m.version == VERSION && m.pageSize == SIZE
    modifies file
    ensures file.Valid() && Follows(old(file.Past()), file.Past()) && ReadsBut0(old(file.disk), file.disk)
    ensures ok ==> file.Now().current == file.Now().coming == g && file.disk.log == []
    ensures ok ==> MetaWritten(m, file.disk)
    ensures ok ==> Still(old(file.Past()), Before(file.Past()))
    ensures !ok ==> Still(old(file.Past()), file.Past())
    ensures file.faults == old(file.faults) + if ok then 0 else 1
  {
    hide Inv, MayWrite, Settles, EncodeMeta, DecodeMeta, IsRun, Forget, Still, Before, ReadsBut0, Write, SyncLost,
      LandedInPart, Lands, MetaWritten;
    ghost var s, h := file.Now(), file.Past();
    var w := PageWrite(META_PAGE, EncodeMeta(m));
    MetaMayBeRewritten(s, m, g);
    MetaReads(s.disk, EncodeMeta(m));
    ghost var written;
    ok, written := file.WriteAt(w, None);
    OneCall(h, file.Past(), PageCall(META_PAGE, ok));
    if !ok {
      return;
    }
    ghost var h1, d1 := file.Past(), file.disk;
    RewriteSettles(s, w, g);
    ok := file.Sync(Some(g));
    SyncReads(s.disk, d1, file.disk);
    MetaIsWritten(s.disk, m);
    OneCall(h1, file.Past(), SyncCall(ok));
    if ok {
      BeforeIs(file.Past(), h1);
    } else {
      StillTwice(h, h1, file.Past());
    }
  }

  // Page 0 is on the platter, byte for byte.
  ghost predicate MetaWritten(m: Meta, d: Disk) {
    d.log == [] && d.cache != [] && d.durable != [] && d.cache[0] == d.durable[0] == EncodeMeta(m)
  }

  lemma MetaIsWritten(d: Disk, m: Meta)
    ensures MetaWritten(m, Synced(Write(d, PageWrite(META_PAGE, EncodeMeta(m)))))
  {
    hide EncodeMeta;
    WriteSettles(d, PageWrite(META_PAGE, EncodeMeta(m)));
  }

  lemma BeforeIs(h: History, h1: History)
    requires |h.run| == |h1.run| + 1 && h1.run <= h.run && h1.run != []
    ensures Before(h).run == h1.run
    ensures forall h0: History :: Still(h0, h1) && h0.calls <= h.calls ==> Still(h0, Before(h))
  {
  }

  lemma BlankHeadOnly(img: Image, g: Gen)
    requires IsBlank(img) && Head(img, g) && Body(img, g) && GenOk(g)
    ensures g.Blank?
  {
    hide DecodeMeta, Chain, Recover;
    ZeroPageIsNoMeta();
    assert img != [] ==> img[0] == ZeroPage();
  }

  // A blank file is one whose creation has not committed.
  lemma BlankIsSpare(s: State)
    requires Inv(s) && IsBlank(s.disk.cache)
    ensures s.current.Blank?
    ensures forall id: PageId :: id < CHUNK_PAGES ==> Spare(s, id)
  {
    hide DecodeMeta, Chain, Recover, Head, Body;
    if Head(s.disk.cache, s.current) {
      BlankHeadOnly(s.disk.cache, s.current);
    } else {
      BlankHeadOnly(s.disk.cache, s.coming);
    }
  }
}
