// The commit protocol as a state machine over the disk: which writes are harmless to the generation a crash
// would recover, when a new generation may take over, and why every image a crash can leave decodes to one
// of the two. The Store of module PageStore takes only steps of this machine.
module CommitProtocol {
  import opened Bytes
  import opened Outcomes
  import opened PageLayout
  import opened SimulatedDisk
  import opened StoreFormat
  import opened Recovery

  // What a file holds. A Snap is one checkpoint: its meta page, its free list, the list pages that carry it, and
  // the bytes of every page it references. A page rewritten in place since the checkpoint drops out of pages.
  datatype Gen =
    | Blank
    | Foreign(img: Image)
    | Snap(meta: Meta, entries: seq<PageId>, lists: seq<PageId>, pages: Pages)

  // current is the generation committed last. coming differs from it only between the write of page 0 and the fsync
  // that settles which of the two the disk holds.
  datatype State = State(disk: Disk, current: Gen, coming: Gen)

  // ---------- generations ----------

  // The pages a checkpoint still needs: all that were handed out and are not on its free list.
  ghost function Referenced(m: Meta, entries: seq<PageId>): set<PageId> {
    HandedOut(m.nextPage) - IdSet(entries)
  }

  ghost predicate GenOk(g: Gen) {
    match g
    case Blank => true
    case Foreign(img) => !IsBlank(img) && Recover(img).Err?
    case Snap(m, entries, lists, pages) =>
      && MetaOk(m, m.filePages)
      && FreeSetOk(m, entries, lists)
      && |entries| == m.freeCount
      && Distinct(lists) && Within(lists, m.nextPage)
      && Chain(pages, m.freeList, lists, entries)
      && IdSet(lists) <= pages.Keys <= Referenced(m, entries)
  }

  // No page of the checkpoint has been rewritten in place.
  ghost predicate Whole(g: Gen) {
    g.Snap? ==> g.pages.Keys == Referenced(g.meta, g.entries)
  }

  // Everything but page 0 is as the generation needs it.
  ghost predicate Body(img: Image, g: Gen) {
    match g
    case Blank => |img| <= CHUNK_PAGES && forall i :: 1 <= i < |img| ==> img[i] == ZeroPage()
    case Foreign(was) => img == was
    case Snap(m, _, _, pages) => m.filePages <= |img| && Shows(img, pages)
  }

  // The content page 0 has when this generation is the current one.
  ghost predicate HeadPage(p: Page, g: Gen) {
    match g
    case Blank => p == ZeroPage()
    case Foreign(_) => false
    case Snap(m, _, _, _) => DecodeMeta(p) == Ok(m)
  }

  ghost predicate Head(img: Image, g: Gen) {
    match g
    case Blank => img == [] || img[0] == ZeroPage()
    case Foreign(_) => true
    case Snap(m, _, _, _) => img != [] && DecodeMeta(img[0]) == Ok(m)
  }

  // Opening img brings back exactly this generation.
  ghost predicate Yields(img: Image, g: Gen) {
    match g
    case Blank => IsBlank(img)
    case Foreign(was) => img == was
    case Snap(m, entries, lists, pages) =>
      !IsBlank(img) && Recover(img) == Ok(Recovered(m, entries, lists)) && Shows(img, pages)
  }

  ghost function GenOf(img: Image): Gen {
    if IsBlank(img) then Blank
    else match Recover(img)
      case Err(_) => Foreign(img)
      case Ok(r) => Snap(r.meta, r.entries, r.lists, PagesOf(img, Referenced(r.meta, r.entries)))
  }

  // A write to page id that leaves the generation intact, wherever on the disk it ends up.
  ghost predicate Spares(g: Gen, w: PageWrite) {
    match g
    case Blank => w.id < CHUNK_PAGES && (w.id == META_PAGE || w.data == ZeroPage())
    case Foreign(_) => false
    case Snap(_, _, _, pages) => w.id !in pages
  }

  // The generation after w: a page rewritten in place is no longer vouched for.
  ghost function Forget(g: Gen, id: PageId): Gen {
    if g.Snap? && id in g.pages then g.(pages := g.pages - {id}) else g
  }

  // ---------- steps ----------

  datatype Action =
    | Idle
    | WritePage(w: PageWrite)
    | BeginCommit(data: Page, to: Gen)
    | SyncOk
    | SyncFail(keep: seq<bool>)
    | Evict(gone: set<nat>)
    | Cut(keep: seq<bool>)

  // Never a list page of a generation that may still be recovered, and page 0 only to say again what it may
  // already say.
  ghost predicate MayWrite(s: State, w: PageWrite) {
    && !s.current.Foreign? && !s.coming.Foreign?
    && (s.current.Blank? ==> Spares(Blank, w))
    && (s.coming.Blank? ==> Spares(Blank, w))
    && (s.current.Snap? ==> w.id !in s.current.lists)
    && (s.coming.Snap? ==> w.id !in s.coming.lists)
    && (w.id == META_PAGE ==> HeadPage(w.data, s.current) || HeadPage(w.data, s.coming))
  }

  // The new generation may be announced once everything it vouches for is on the disk and no write is on its way.
  ghost predicate MayCommit(s: State, data: Page, to: Gen) {
    && s.current == s.coming && !s.current.Foreign?
    && s.disk.log == []
    && to.Snap? && GenOk(to)
    && (s.current.Blank? ==> to.pages == map[])
    && Body(s.disk.durable, to) && Body(s.disk.cache, to)
    && HeadPage(data, to)
  }

  // Both the platter and the cache say g, and no write is on its way: the other generation is gone for good.
  ghost predicate Settles(s: State, d: Disk, g: Gen) {
    && (g == s.current || g == s.coming)
    && !g.Foreign? && d.log == []
    && Head(d.durable, g) && Head(d.cache, g)
  }

  ghost predicate Step(s: State, a: Action, s': State) {
    match a
    case Idle => s' == s
    case WritePage(w) =>
      MayWrite(s, w) && s' == State(Write(s.disk, w), Forget(s.current, w.id), Forget(s.coming, w.id))
    case BeginCommit(data, to) =>
      MayCommit(s, data, to) && s' == State(Write(s.disk, PageWrite(META_PAGE, data)), s.current, to)
    case SyncOk =>
      && s'.disk == Synced(s.disk)
      && (|| (s'.current == s.current && s'.coming == s.coming)
          || (s'.current == s'.coming && Settles(s, s'.disk, s'.current)))
    case SyncFail(keep) =>
      |keep| == |s.disk.log| && s' == s.(disk := SyncLost(s.disk, keep))
    case Evict(gone) =>
      s' == s.(disk := Evicted(s.disk, gone))
    case Cut(keep) =>
      |keep| == |s.disk.log| && s' == s.(disk := PowerCut(s.disk, keep))
  }

  ghost predicate Next(s: State, s': State) {
    exists a :: Step(s, a, s')
  }

  // Any file at all, as long as the cache and the platter agree on it.
  ghost predicate Initial(s: State) {
    s.disk.log == [] && s.disk.cache == s.disk.durable && s.current == s.coming == GenOf(s.disk.cache)
  }

  ghost predicate IsRun(run: seq<State>) {
    && |run| > 0
    && Initial(run[0])
    && forall i, j :: 0 <= i && j == i + 1 < |run| ==> Next(run[i], run[j])
  }

  // An image some crash may leave: power loss keeping any subset of the writes since the last fsync, or a
  // process restart after which any clean pages have left the cache.
  ghost predicate Survives(d: Disk, img: Image) {
    || (exists keep: seq<bool> :: |keep| == |d.log| && img == PowerCut(d, keep).cache)
    || (exists gone: set<nat> :: img == Evicted(d, gone).cache)
  }

  // The machine takes every fault there is: whatever subset of the writes lands when an fsync fails or the power goes,
  // and whatever clean pages a restart drops.
  lemma EveryFaultIsAStep(s: State, keep: seq<bool>, img: Image, gone: set<nat>, d: Disk)
    requires Lands(s.disk.durable, s.disk.log, keep, img) && Drops(s.disk, gone, d)
    ensures Next(s, s.(disk := Disk(img, s.disk.cache, []))) && Next(s, s.(disk := Disk(img, img, [])))
    ensures Next(s, s.(disk := d))
  {
    KeptOnce(s.disk, keep, img);
    assert Step(s, SyncFail(keep), s.(disk := Disk(img, s.disk.cache, [])));
    assert Step(s, Cut(keep), s.(disk := Disk(img, img, [])));
    DropsOnce(s.disk, gone, d);
    assert Step(s, Evict(gone), s.(disk := d));
  }

  lemma KeptOnce(d: Disk, keep: seq<bool>, img: Image)
    requires Lands(d.durable, d.log, keep, img)
    ensures |keep| == |d.log| && ApplyKept(d.durable, d.log, keep) == img
  {
    KeptLands(d.durable, d.log, keep);
    LandsOnce(d.durable, d.log, keep, img, ApplyKept(d.durable, d.log, keep));
  }

  // And what survives is what these faults leave, no more and no less.
  lemma SurvivesMeans(d: Disk, img: Image)
    ensures Survives(d, img) <==>
            || (exists keep :: Lands(d.durable, d.log, keep, img))
            || (exists gone :: Drops(d, gone, Disk(d.durable, img, d.log)))
  {
    hide Lands, Drops;
    if keep: seq<bool> :| |keep| == |d.log| && img == PowerCut(d, keep).cache {
      KeptLands(d.durable, d.log, keep);
    }
    if gone: set<nat> :| img == Evicted(d, gone).cache {
      EvictedDrops(d, gone);
    }
    if keep :| Lands(d.durable, d.log, keep, img) {
      KeptOnce(d, keep, img);
      assert img == PowerCut(d, keep).cache;
    }
    if gone :| Drops(d, gone, Disk(d.durable, img, d.log)) {
      DropsOnce(d, gone, Disk(d.durable, img, d.log));
    }
  }

  lemma DropsOnce(d: Disk, gone: set<nat>, t: Disk)
    requires Drops(d, gone, t)
    ensures t == Evicted(d, gone)
  {
    EvictedDrops(d, gone);
    assert t.cache == Evicted(d, gone).cache;
  }

  // ---------- the invariant ----------

  ghost predicate Safe(d: Disk, g: Gen) {
    && GenOk(g)
    && Body(d.durable, g) && Body(d.cache, g)
    && forall k :: 0 <= k < |d.log| ==> Spares(g, d.log[k])
  }

  ghost predicate HeadIn(img: Image, s: State) {
    Head(img, s.current) || Head(img, s.coming)
  }

  ghost predicate HeadPageIn(w: PageWrite, s: State) {
    w.id == META_PAGE ==> HeadPage(w.data, s.current) || HeadPage(w.data, s.coming)
  }

  ghost predicate Inv(s: State) {
    && Safe(s.disk, s.current) && Safe(s.disk, s.coming)
    && HeadIn(s.disk.durable, s) && HeadIn(s.disk.cache, s)
    && (forall k :: 0 <= k < |s.disk.log| ==> HeadPageIn(s.disk.log[k], s))
    && (s.current.Foreign? ==> s.coming == s.current)
    && (s.coming.Foreign? ==> s.coming == s.current)
    && (s.current.Blank? && s.coming.Snap? ==> s.coming.pages == map[])
    && (s.coming.Blank? ==> s.current.Blank?)
  }

  // ---------- images ----------

  lemma PutKeepsBody(img: Image, w: PageWrite, g: Gen)
    requires Body(img, g) && Spares(g, w)
    ensures Body(Put(img, w), g)
  {
  }

  lemma PutHead(img: Image, w: PageWrite, s: State)
    requires HeadIn(img, s) && HeadPageIn(w, s) && !s.current.Foreign? && !s.coming.Foreign?
    ensures HeadIn(Put(img, w), s)
  {
  }

  // Whatever subset of harmless writes lands, the generation stays.
  lemma {:induction false} KeptBody(img: Image, log: seq<PageWrite>, keep: seq<bool>, g: Gen)
    requires |keep| == |log|
    requires Body(img, g) && forall k :: 0 <= k < |log| ==> Spares(g, log[k])
    ensures Body(ApplyKept(img, log, keep), g)
  {
    if log != [] {
      var n := |log| - 1;
      KeptBody(img, log[..n], keep[..n], g);
      PutKeepsBody(ApplyKept(img, log[..n], keep[..n]), log[n], g);
    }
  }

  lemma {:induction false} KeptHead(img: Image, log: seq<PageWrite>, keep: seq<bool>, s: State)
    requires |keep| == |log|
    requires HeadIn(img, s) && forall k :: 0 <= k < |log| ==> HeadPageIn(log[k], s)
    requires !s.current.Foreign? && !s.coming.Foreign?
    ensures HeadIn(ApplyKept(img, log, keep), s)
  {
    if log != [] {
      var n := |log| - 1;
      KeptHead(img, log[..n], keep[..n], s);
      PutHead(ApplyKept(img, log[..n], keep[..n]), log[n], s);
    }
  }

  // ---------- every step keeps the invariant ----------

  lemma ForgetKeepsSafe(d: Disk, g: Gen, id: PageId)
    requires Safe(d, g)
    requires g.Snap? ==> id !in g.lists
    ensures Safe(d, Forget(g, id))
  {
    if g.Snap? && id in g.pages {
      ChainFrame(g.pages, g.pages - {id}, g.meta.freeList, g.lists, g.entries);
    }
  }

  lemma WriteKeepsSafe(d: Disk, g: Gen, w: PageWrite)
    requires Safe(d, g) && Spares(g, w)
    ensures Safe(Write(d, w), g)
  {
    PutKeepsBody(d.cache, w, g);
  }

  lemma ForgetKeepsHeads(s: State, id: PageId, s': State)
    requires s'.current == Forget(s.current, id) && s'.coming == Forget(s.coming, id)
    ensures forall img :: HeadIn(img, s) ==> HeadIn(img, s')
    ensures forall w :: HeadPageIn(w, s) ==> HeadPageIn(w, s')
  {
  }

  // A page neither generation needs as a list page may be written: it is forgotten before it is spared.
  lemma ForgottenIsSpared(s: State, w: PageWrite)
    requires MayWrite(s, w) && Safe(s.disk, s.current) && Safe(s.disk, s.coming)
    ensures Spares(Forget(s.current, w.id), w) && Spares(Forget(s.coming, w.id), w)
  {
  }

  lemma WriteKeepsHeads(s: State, w: PageWrite, s': State)
    requires !s.current.Foreign? && !s.coming.Foreign? && HeadPageIn(w, s)
    requires HeadIn(s.disk.durable, s) && HeadIn(s.disk.cache, s)
    requires forall k :: 0 <= k < |s.disk.log| ==> HeadPageIn(s.disk.log[k], s)
    requires s' == State(Write(s.disk, w), Forget(s.current, w.id), Forget(s.coming, w.id))
    ensures HeadIn(s'.disk.durable, s') && HeadIn(s'.disk.cache, s')
    ensures forall k :: 0 <= k < |s'.disk.log| ==> HeadPageIn(s'.disk.log[k], s')
  {
    PutHead(s.disk.cache, w, s);
    ForgetKeepsHeads(s, w.id, s');
  }

  lemma WriteKeepsInv(s: State, w: PageWrite, s': State)
    requires Inv(s) && Step(s, WritePage(w), s')
    ensures Inv(s')
  {
    ForgottenIsSpared(s, w);
    ForgetKeepsSafe(s.disk, s.current, w.id);
    ForgetKeepsSafe(s.disk, s.coming, w.id);
    WriteKeepsSafe(s.disk, s'.current, w);
    WriteKeepsSafe(s.disk, s'.coming, w);
    WriteKeepsHeads(s, w, s');
  }

  lemma BeginKeepsInv(s: State, data: Page, to: Gen, s': State)
    requires Inv(s) && Step(s, BeginCommit(data, to), s')
    ensures Inv(s')
  {
    var w := PageWrite(META_PAGE, data);
    WriteKeepsSafe(s.disk, s.current, w);
    WriteKeepsSafe(s.disk, to, w);
    PutHead(s.disk.cache, w, s');
  }

  lemma KeptKeepsSafe(d: Disk, keep: seq<bool>, g: Gen)
    requires |keep| == |d.log| && Safe(d, g)
    ensures Safe(SyncLost(d, keep), g) && Safe(PowerCut(d, keep), g)
  {
    KeptBody(d.durable, d.log, keep, g);
  }

  lemma KeptKeepsHead(s: State, keep: seq<bool>)
    requires |keep| == |s.disk.log| && Inv(s)
    ensures HeadIn(ApplyKept(s.disk.durable, s.disk.log, keep), s)
  {
    if s.current.Foreign? || s.coming.Foreign? {
      KeptBody(s.disk.durable, s.disk.log, keep, s.current);
    } else {
      KeptHead(s.disk.durable, s.disk.log, keep, s);
    }
  }

  lemma SyncKeepsInv(s: State, s': State)
    requires Inv(s) && Step(s, SyncOk, s')
    ensures Inv(s')
  {
    var all := All(|s.disk.log|);
    AllKept(s.disk.durable, s.disk.log);
    KeptKeepsSafe(s.disk, all, s.current);
    KeptKeepsSafe(s.disk, all, s.coming);
    KeptKeepsHead(s, all);
  }

  lemma EvictKeepsSafe(d: Disk, gone: set<nat>, g: Gen)
    requires Safe(d, g)
    ensures Safe(Evicted(d, gone), g)
  {
    var c := Evicted(d, gone).cache;
    if g.Foreign? {
      assert forall k :: 0 <= k < |d.log| ==> Spares(g, d.log[k]);
      assert c == d.cache;
    }
  }

  lemma EvictKeepsInv(s: State, gone: set<nat>, s': State)
    requires Inv(s) && Step(s, Evict(gone), s')
    ensures Inv(s')
  {
    EvictKeepsSafe(s.disk, gone, s.current);
    EvictKeepsSafe(s.disk, gone, s.coming);
  }

  lemma StepKeepsInv(s: State, a: Action, s': State)
    requires Inv(s) && Step(s, a, s')
    ensures Inv(s')
  {
    match a
    case Idle =>
    case WritePage(w) => WriteKeepsInv(s, w, s');
    case BeginCommit(data, to) => BeginKeepsInv(s, data, to, s');
    case SyncOk => SyncKeepsInv(s, s');
    case SyncFail(keep) =>
      KeptKeepsSafe(s.disk, keep, s.current);
      KeptKeepsSafe(s.disk, keep, s.coming);
      KeptKeepsHead(s, keep);
    case Evict(gone) => EvictKeepsInv(s, gone, s');
    case Cut(keep) =>
      KeptKeepsSafe(s.disk, keep, s.current);
      KeptKeepsSafe(s.disk, keep, s.coming);
      KeptKeepsHead(s, keep);
  }

  // ---------- what any image is ----------

  lemma RecoveredIsOk(img: Image, m: Meta, r: Recovered)
    requires RecoverFrom(img, m) == Ok(r)
    ensures r.meta == m
    ensures GenOk(Snap(m, r.entries, r.lists, PagesOf(img, Referenced(m, r.entries))))
  {
    FreeCountIsExact(img, m, r);
    var pages := PagesOf(img, HandedOut(m.nextPage));
    ReadIsChain(img, m.nextPage, pages, m.freeList, r.lists, r.entries, {});
    ChainFrame(pages, PagesOf(img, Referenced(m, r.entries)), m.freeList, r.lists, r.entries);
  }

  lemma GenOfIsOk(img: Image)
    ensures GenOk(GenOf(img)) && Whole(GenOf(img)) && Body(img, GenOf(img)) && Head(img, GenOf(img))
  {
    if !IsBlank(img) && Recover(img).Ok? {
      RecoveredIsOk(img, DecodeMeta(img[0]).value, Recover(img).value);
    }
  }

  lemma ListIsRecovered(img: Image, m: Meta, entries: seq<PageId>, lists: seq<PageId>)
    requires m.nextPage <= |img|
    requires ReadChain(img, m.nextPage, m.freeList, {}) == Ok((entries, lists))
    requires |entries| == m.freeCount && FreeSetOk(m, entries, lists) && MetaOk(m, |img|)
    ensures RecoverFrom(img, m) == Ok(Recovered(m, entries, lists))
  {
    assert |entries| % TWO_TO_THE_32 == m.freeCount;
    assert ReadFreeList(img, m) == Ok((entries, lists));
  }

  // An image with the generation's page 0 and body opens as that generation.
  lemma BodyYields(img: Image, g: Gen)
    requires GenOk(g) && Body(img, g) && Head(img, g)
    ensures Yields(img, g)
  {
    match g
    case Blank =>
    case Foreign(_) =>
    case Snap(m, entries, lists, pages) =>
      ChainIsRead(img, m.nextPage, pages, m.freeList, lists, entries, {});
      ListIsRecovered(img, m, entries, lists);
      ZeroPageIsNoMeta();
  }
}
