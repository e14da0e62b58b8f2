// The steps of a checkpoint between its first fsync and its commit point: take pages for the new free list, write
// the list into them, fsync, write page 0, fsync.
module Checkpointing {
  import opened Bytes
  import opened Outcomes
  import opened PageLayout
  import opened SimulatedDisk
  import opened StoreFormat
  import opened Recovery
  import opened CommitProtocol
  import opened CrashSafety
  import opened PageFile
  import opened LiveState
  import opened CheckpointPlan
  import opened StoreWrites

  // A store that create has just laid out, not yet committed once.
  ghost predicate Starting(l: Live, s: State) {
    && l == NewStore()
    && s.current.Blank? && (s.coming.Blank? || s.coming.Snap?)
    && CHUNK_PAGES <= |s.disk.cache| && CHUNK_PAGES <= |s.disk.Settled()|
    && PageAt(s.disk.cache, META_PAGE) == PageAt(s.disk.Settled(), META_PAGE) == ZeroPage()
  }

  // After a successful fsync the platter holds all that was on its way to it.
  lemma SyncKeepsLinked(l: Live, s: State, t: State)
    requires Linked(l, s) && t == s.(disk := Synced(s.disk))
    ensures Linked(l, t) && t.disk.log == []
    ensures t.disk.Settled() == t.disk.durable == s.disk.Settled() && t.disk.cache == s.disk.cache
    ensures Undisturbed(l, s.disk, t.disk)
    ensures Agreed(l, s) ==> Agreed(l, t)
  {
  }

  lemma SyncStarts(l: Live, s: State, t: State)
    requires Starting(l, s) && t == State(Synced(s.disk), Blank, Blank)
    ensures Settles(s, Synced(s.disk), Blank)
    ensures Linked(l, t) && t.disk.log == [] && Accounted(l)
    ensures Undisturbed(l, s.disk, t.disk) && Agreed(l, t)
  {
  }

  lemma UndisturbedTwice(l: Live, d: Disk, d1: Disk, d2: Disk)
    requires Undisturbed(l, d, d1) && Undisturbed(l, d1, d2)
    ensures Undisturbed(l, d, d2)
  {
  }

  // A checkpoint needs list pages only if there is something to list, and a store that has never been
  // checkpointed has nothing.
  lemma ListingNeedsSnap(l: Live, p: Plan, s: State)
    requires Linked(l, s) && PlanOk(l, p) && PagesFor(Count(l, p)) > |p.lists|
    ensures s.current.Snap?
  {
    assert |p.free| <= |l.free|;
  }

  // Takes pages for the new free list until there are enough of them, reusable ones first.
  method TakeListPages(file: File, l: Live) returns (r: Result<Plan>)
    requires file.Valid() && Accounted(l) && Linked(l, file.Now()) && file.disk.log == []
    modifies file
    ensures file.Valid() && Still(old(file.Past()), file.Past()) && Unfailed(old(file.Past()), file.Past())
    ensures Linked(l, file.Now()) && Undisturbed(l, old(file.disk), file.disk)
    ensures old(Agreed(l, file.Now())) ==> Agreed(l, file.Now())
    ensures r.Ok? ==> PlanOk(l, r.value) && Fits(|r.value.lists|, Count(l, r.value)) && InTurn(l, r.value)
    ensures r.Ok? ==> r.value.filePages <= |file.disk.cache| && r.value.filePages <= |file.disk.Settled()|
    ensures r.Ok? && r.value.lists == [] ==> file.disk.log == []
    ensures r.Ok? && r.value.lists != [] ==> file.Now().current.Snap?
    ensures r.Err? ==> r.error == Io || (r.error == Full && RunsOut(l))
    ensures r.Ok? ==> !RunsOut(l)
    ensures file.faults == old(file.faults) + if r == Err(Io) then 1 else 0
  {
    hide Linked, Accounted, Agreed, Undisturbed, IsRun, PlanOk, Fits, PagesFor, Still, Unfailed, Follows, InTurn;
    ghost var h := file.Past();
    StillSame(h);
    ghost var d := file.disk;
    ghost var agreed := Agreed(l, file.Now());
    var p := StartPlan(l);
    StartPlanIsOk(l);
    StartsInTurn(l);
    LinkedReaches(l, file.Now());
    UndisturbedSame(l, d);
    while PagesFor(Count(l, p)) > |p.lists|
      invariant file.Valid() && Still(h, file.Past()) && Unfailed(h, file.Past())
      invariant Linked(l, file.Now()) && Undisturbed(l, d, file.disk)
      invariant agreed ==> Agreed(l, file.Now())
      invariant PlanOk(l, p) && HasTaken(l, p) && InTurn(l, p)
      invariant |p.lists| <= PagesFor(Count(l, p)) || Fits(|p.lists|, Count(l, p))
      invariant p.filePages <= |file.disk.cache| && p.filePages <= |file.disk.Settled()|
      invariant p.lists == [] ==> file.disk.log == []
      invariant p.lists != [] ==> file.Now().current.Snap?
      invariant file.faults == old(file.faults)
      decreases PagesFor(Count(l, p)) - |p.lists|
    {
      ghost var before := Count(l, p);
      ListingNeedsSnap(l, p, file.Now());
      if |p.free| > 0 {
        PopFreeIsOk(l, p);
        PopsInTurn(l, p);
        p := PopFree(p);
      } else {
        var id := p.nextPage;
        if id >= MAX_PAGES {
          FullIsRunsOut(l, p);
          return Err(Full);
        }
        var filePages := p.filePages;
        PlanBounds(l, p);
        if id >= filePages {
          var grown := GrowTo(filePages);
          if grown <= id {
            return Err(Full);
          }
          ghost var d1, h1 := file.disk, file.Past();
          var ok := GrowFile(file, filePages, grown, l);
          UndisturbedTwice(l, d, d1, file.disk);
          SteadyTwice(h, h1, file.Past());
          if !ok {
            return Err(Io);
          }
          filePages := grown;
        }
        HandOutIsOk(l, p, filePages);
        HandsOutInTurn(l, p, filePages);
        p := HandOut(p, filePages);
      }
      OneMoreFits(|p.lists| - 1, before, Count(l, p));
      PagesForShrinks(before, Count(l, p));
    }
    FixpointFits(|p.lists|, Count(l, p));
    EnoughLeft(l, p);
    r := Ok(p);
  }

  // One list page, put together field by field in a page buffer.
  method BuildListPage(lists: seq<PageId>, entries: seq<PageId>, i: nat) returns (p: Page)
    requires i < |lists| && i * CAPACITY <= |entries|
    ensures p == ListPage(lists, entries, i)
  {
    hide NewPage, PutU16, U32At, U16At;
    var id := lists[i];
    var next := NO_PAGE;
    if i + 1 < |lists| {
      next := lists[i + 1];
    }
    var lo := i * CAPACITY;
    var hi := lo + CAPACITY;
    if hi > |entries| {
      hi := |entries|;
    }
    p := PutU32(NewPage(id, KIND_FREE_LIST), OFF_LIST_NEXT, next);
    ghost var blank := p;
    var chunk := entries[lo..hi];
    for j := 0 to |chunk|
      invariant |p| == SIZE && p == PutU32s(blank, LIST_HEADER, chunk[..j])
    {
      assert chunk[..j + 1][..j] == chunk[..j];
      p := PutU32(p, LIST_HEADER + 4 * j, chunk[j]);
    }
    assert chunk[..|chunk|] == chunk;
    p := PutU16(p, OFF_ITEM_COUNT, hi - lo);
    p := PutU16(p, OFF_FREE_START, LIST_HEADER + 4 * (hi - lo));
  }

  // List page k has been written: reads show it and the next fsync flushes it.
  ghost predicate Landed(d: Disk, lists: seq<PageId>, entries: seq<PageId>, k: nat)
    requires k < |lists|
  {
    && k * CAPACITY <= |entries|
    && lists[k] < |d.cache| && lists[k] < |d.Settled()|
    && PageAt(d.cache, lists[k]) == PageAt(d.Settled(), lists[k]) == ListPage(lists, entries, k)
  }

  ghost predicate LandedTo(d: Disk, lists: seq<PageId>, entries: seq<PageId>, n: nat)
    requires n <= |lists|
  {
    forall k :: 0 <= k < n ==> Landed(d, lists, entries, k)
  }

  lemma TakenIsExpendable(l: Live, p: Plan, s: State, k: nat)
    requires Ready(l, s) && Inv(s) && PlanOk(l, p) && k < |p.lists|
    ensures Expendable(l, s, p.lists[k]) && !Owned(l, p.lists[k])
  {
    var id := p.lists[k];
    assert TakenFrom(l, p, id);
    if l.nextPage <= id {
      FreshIsExpendable(l, s, id);
    } else {
      var j :| |p.free| <= j < |l.free| && l.free[j] == id;
      FreeIsExpendable(l, s, j);
      assert id in l.status;
    }
  }

  lemma BothForget(l: Live, s: State, w: PageWrite, t: State)
    requires Ready(l, s) && Expendable(l, s, w.id) && Wrote(s, w, t)
    ensures SameGens(s, t)
  {
  }

  lemma ListWriteLinks(l: Live, p: Plan, entries: seq<PageId>, s: State, k: nat, data: Page, t: State)
    requires Ready(l, s) && Inv(s) && PlanOk(l, p) && k < |p.lists|
    requires Wrote(s, PageWrite(p.lists[k], data), t)
    requires LandedTo(s.disk, p.lists, entries, k) && k * CAPACITY <= |entries|
    ensures Ready(l, t) && SameGens(s, t) && Undisturbed(l, s.disk, t.disk)
    ensures Agreed(l, s) ==> Agreed(l, t)
    ensures data == ListPage(p.lists, entries, k) ==> LandedTo(t.disk, p.lists, entries, k + 1)
  {
    hide Owned, Linked, Accounted, Agreed, Undisturbed, PlanOk, LandedTo, ListPage, Expendable, Inv, Distinct;
    var w := PageWrite(p.lists[k], data);
    TakenIsExpendable(l, p, s, k);
    PlanIsDistinct(l, p);
    WriteKeepsLinked(l, s, w, t);
    BothForget(l, s, w, t);
    WriteSettles(s.disk, w);
    if data == ListPage(p.lists, entries, k) {
      ListWriteLands(s.disk, p.lists, entries, k, data);
    }
    WriteUndisturbs(l, s.disk, w);
  }

  lemma PlanIsDistinct(l: Live, p: Plan)
    requires PlanOk(l, p)
    ensures Distinct(p.lists)
  {
  }

  lemma ListWriteLands(d: Disk, lists: seq<PageId>, entries: seq<PageId>, k: nat, data: Page)
    requires k < |lists| && Distinct(lists) && k * CAPACITY <= |entries|
    requires LandedTo(d, lists, entries, k) && data == ListPage(lists, entries, k)
    ensures LandedTo(Write(d, PageWrite(lists[k], data)), lists, entries, k + 1)
  {
    hide ListPage;
    WriteSettles(d, PageWrite(lists[k], data));
    forall j | 0 <= j < k + 1
      ensures Landed(Write(d, PageWrite(lists[k], data)), lists, entries, j)
    {
      if j < k {
        assert Landed(d, lists, entries, j) && lists[j] != lists[k];
      }
    }
  }

  // Builds the i-th list page and writes it.
  method WriteListPage(file: File, ghost l: Live, p: Plan, entries: seq<PageId>, i: nat) returns (ok: bool)
    requires file.Valid() && Ready(l, file.Now()) && PlanOk(l, p)
    requires i < |p.lists| && i * CAPACITY <= |entries| && LandedTo(file.disk, p.lists, entries, i)
    modifies file
    ensures file.Valid() && Still(old(file.Past()), file.Past()) && Unfailed(old(file.Past()), file.Past())
    ensures Ready(l, file.Now()) && Undisturbed(l, old(file.disk), file.disk)
    ensures old(Agreed(l, file.Now())) ==> Agreed(l, file.Now())
    ensures ok ==> LandedTo(file.disk, p.lists, entries, i + 1)
    ensures file.faults == old(file.faults) + if ok then 0 else 1
  {
    hide Ready, Agreed, Undisturbed, IsRun, PlanOk, LandedTo, ListPage, Expendable, MayWrite, Inv, Still, Unfailed,
      LandedInPart;
    ghost var s, h := file.Now(), file.Past();
    var page := BuildListPage(p.lists, entries, i);
    RunIsSafe(file.run, |file.run| - 1);
    TakenIsExpendable(l, p, s, i);
    ExpendableMayBeWritten(l, s, PageWrite(p.lists[i], page));
    UndisturbedSame(l, file.disk);
    ghost var written;
    ok, written := file.WriteAt(PageWrite(p.lists[i], page), None);
    OneCall(h, file.Past(), PageCall(p.lists[i], ok));
    if written.Some? {
      ListWriteLinks(l, p, entries, s, i, written.value, file.Now());
    }
  }

  method WriteListPages(file: File, l: Live, p: Plan, entries: seq<PageId>) returns (ok: bool)
    requires file.Valid() && Accounted(l) && Linked(l, file.Now())
    requires p.lists != [] ==> file.Now().current.Snap?
    requires PlanOk(l, p) && entries == NewEntries(l, p) && Fits(|p.lists|, |entries|)
    requires p.filePages <= |file.disk.cache| && p.filePages <= |file.disk.Settled()|
    modifies file
    ensures file.Valid() && Still(old(file.Past()), file.Past()) && Unfailed(old(file.Past()), file.Past())
    ensures Linked(l, file.Now()) && Undisturbed(l, old(file.disk), file.disk)
    ensures old(Agreed(l, file.Now())) ==> Agreed(l, file.Now())
    ensures p.filePages <= |file.disk.cache| && p.filePages <= |file.disk.Settled()|
    ensures ok ==> LandedTo(file.disk, p.lists, entries, |p.lists|)
    ensures p.lists == [] ==> ok && file.disk == old(file.disk)
    ensures file.faults == old(file.faults) + if ok then 0 else 1
  {
    hide Linked, Accounted, Agreed, Undisturbed, IsRun, PlanOk, Fits, LandedTo, Still, Unfailed;
    ghost var h, d := file.Past(), file.disk;
    ghost var agreed := Agreed(l, file.Now());
    StillSame(h);
    UndisturbedSame(l, d);
    NothingLanded(d, p.lists, entries);
    for i := 0 to |p.lists|
      invariant file.Valid() && Still(h, file.Past()) && Unfailed(h, file.Past())
      invariant Linked(l, file.Now()) && Undisturbed(l, d, file.disk)
      invariant p.lists != [] ==> file.Now().current.Snap?
      invariant agreed ==> Agreed(l, file.Now())
      invariant p.filePages <= |file.disk.cache| && p.filePages <= |file.disk.Settled()|
      invariant LandedTo(file.disk, p.lists, entries, i)
      invariant i == 0 ==> file.disk == d
      invariant file.faults == old(file.faults)
    {
      ChunkStartsInBounds(|p.lists|, |entries|, i);
      ghost var h1, d1 := file.Past(), file.disk;
      ok := WriteListPage(file, l, p, entries, i);
      SteadyTwice(h, h1, file.Past());
      StillEnds(h1, file.Past());
      UndisturbedTwice(l, d, d1, file.disk);
      UndisturbedGrows(l, d1, file.disk);
      if !ok {
        return false;
      }
    }
    ok := true;
  }

  lemma NothingLanded(d: Disk, lists: seq<PageId>, entries: seq<PageId>)
    ensures LandedTo(d, lists, entries, 0)
  {
  }

  lemma UndisturbedGrows(l: Live, d: Disk, d': Disk)
    requires Undisturbed(l, d, d')
    ensures |d.cache| <= |d'.cache| && |d.Settled()| <= |d'.Settled()|
  {
  }

  // ---------- the commit point ----------

  // The pages the new generation vouches for: those it references whose bytes have reached the platter.
  ghost function Vouched(d: Disk, next: Meta, entries: seq<PageId>): Pages
    requires next.nextPage <= |d.cache|
  {
    PagesOf(d.cache, set id | id in Referenced(next, entries) && PageAt(d.durable, id) == d.cache[id])
  }

  ghost function NewGen(d: Disk, next: Meta, l: Live, p: Plan): Gen
    requires next.nextPage <= |d.cache|
  {
    Snap(next, NewEntries(l, p), p.lists, Vouched(d, next, NewEntries(l, p)))
  }

  lemma LandedIsLaidOut(l: Live, p: Plan, next: Meta, d: Disk, k: nat)
    requires Accounted(l) && PlanOk(l, p) && NextMeta(l, p, next) && d.log == []
    requires p.filePages <= |d.cache| && k < |p.lists|
    requires Landed(d, p.lists, NewEntries(l, p), k)
    ensures LaidOut(Vouched(d, next, NewEntries(l, p)), p.lists, NewEntries(l, p), k)
  {
    hide ListPage;
    ReferencedAfter(l, p, next);
    assert d.Settled() == d.durable;
    assert p.lists[k] in Referenced(next, NewEntries(l, p));
  }

  lemma VouchedIsOnDisk(d: Disk, next: Meta, entries: seq<PageId>)
    requires next.nextPage <= next.filePages <= |d.cache| && next.filePages <= |d.durable|
    ensures Shows(d.cache, Vouched(d, next, entries)) && Shows(d.durable, Vouched(d, next, entries))
    ensures Vouched(d, next, entries).Keys <= Referenced(next, entries)
  {
  }

  lemma NewStoreReferencesNothing(l: Live, p: Plan, next: Meta)
    requires l == NewStore() && PlanOk(l, p) && p.lists == [] && next.nextPage == p.nextPage
    ensures Referenced(next, NewEntries(l, p)) == {}
  {
    assert !TakenFrom(l, p, l.nextPage);
    assert HandedOut(1) == {};
  }

  // Once all of it is on the platter, the new generation may be announced.
  lemma NewGenMayCommit(l: Live, p: Plan, next: Meta, s: State)
    requires Accounted(l) && Linked(l, s) && s.disk.log == []
    requires PlanOk(l, p) && NextMeta(l, p, next) && Fits(|p.lists|, |NewEntries(l, p)|)
    requires next.version == VERSION && next.pageSize == SIZE
    requires LandedTo(s.disk, p.lists, NewEntries(l, p), |p.lists|)
    requires p.filePages <= |s.disk.cache| && p.filePages <= |s.disk.Settled()|
    requires p.lists != [] ==> s.current.Snap?
    ensures MayCommit(s, EncodeMeta(next), NewGen(s.disk, next, l, p))
  {
    hide EncodeMeta, DecodeMeta, ListPage, GenOk, Fits, Accounted, LaidOut, Landed, Vouched, Referenced, NewEntries;
    hide Shows;
    var entries := NewEntries(l, p);
    var pages := Vouched(s.disk, next, entries);
    MetaRoundTrip(next);
    assert s.disk.Settled() == s.disk.durable;
    PlanBounds(l, p);
    forall k | 0 <= k < |p.lists|
      ensures LaidOut(pages, p.lists, entries, k)
    {
      assert Landed(s.disk, p.lists, entries, k);
      LandedIsLaidOut(l, p, next, s.disk, k);
    }
    VouchedIsOnDisk(s.disk, next, entries);
    NewGenerationIsOk(l, p, next, pages);
    if s.current.Blank? {
      NewStoreReferencesNothing(l, p, next);
    }
  }

  lemma SyncKeepsLanded(d: Disk, lists: seq<PageId>, entries: seq<PageId>)
    requires LandedTo(d, lists, entries, |lists|)
    ensures LandedTo(Synced(d), lists, entries, |lists|)
  {
    hide ListPage;
    assert Synced(d).Settled() == d.Settled();
    forall k | 0 <= k < |lists|
      ensures Landed(Synced(d), lists, entries, k)
    {
      assert Landed(d, lists, entries, k);
    }
  }

  // What the disk holds once page 0 has been written over the settled disk d and fsynced.
  ghost function Committed(d: Disk, data: Page): Disk {
    Synced(Write(d, PageWrite(META_PAGE, data)))
  }

  lemma CommitSettles(s: State, data: Page, to: Gen, t: State)
    requires s.disk.log == [] && to.Snap? && HeadPage(data, to)
    requires t == State(Write(s.disk, PageWrite(META_PAGE, data)), s.current, to)
    ensures Settles(t, Synced(t.disk), to)
  {
    hide DecodeMeta;
    WriteSettles(s.disk, PageWrite(META_PAGE, data));
  }

  lemma CommitLinks(l: Live, p: Plan, next: Meta, s: State, data: Page)
    requires Accounted(l) && PlanOk(l, p) && NextMeta(l, p, next) && s.disk.log == []
    requires p.filePages <= |s.disk.cache| && p.filePages <= |s.disk.Settled()|
    ensures var to := NewGen(s.disk, next, l, p);
            var t := State(Committed(s.disk, data), to, to);
            && Ready(Reopened(Recovered(next, NewEntries(l, p), p.lists)), t)
            && Undisturbed(l, s.disk, t.disk)
            && (Agreed(l, s) ==> Agreed(l, t))
  {
    hide PlanOk, Owned, Vouched;
    PlanBounds(l, p);
    assert s.disk.Settled() == s.disk.durable;
    CheckpointKeepsPages(l, p, next);
    WriteSettles(s.disk, PageWrite(META_PAGE, data));
    MetaIsNotOwned(l);
    WriteUndisturbs(l, s.disk, PageWrite(META_PAGE, data));
    SyncUndisturbs(l, Write(s.disk, PageWrite(META_PAGE, data)));
  }

  lemma MetaIsNotOwned(l: Live)
    ensures !Owned(l, META_PAGE)
  {
  }

  lemma SyncUndisturbs(l: Live, d: Disk)
    ensures Undisturbed(l, d, Synced(d))
  {
    assert Synced(d).Settled() == d.Settled();
  }

  // The generation vouches for its list pages and for every page in use that is or will be on the platter as reads
  // show it.
  ghost predicate VouchesFor(l: Live, d: Disk, to: Gen) {
    && to.Snap? && to.pages.Keys <= Referenced(to.meta, to.entries)
    && (forall id :: id in to.lists ==> id in to.pages)
    && (forall id: PageId :: Owned(l, id) && PageAt(d.Settled(), id) == PageAt(d.cache, id) ==> id in to.pages)
  }

  lemma VouchesBefore(l: Live, d: Disk, d': Disk, to: Gen)
    requires VouchesFor(l, d', to) && Undisturbed(l, d, d')
    ensures VouchesFor(l, d, to)
  {
    hide Referenced, Owned;
  }

  // Where none has been rewritten in place and lost, that is all of them.
  lemma VouchesForAll(l: Live, s: State, to: Gen)
    requires VouchesFor(l, s.disk, to) && Agreed(l, s)
    requires forall id :: id in Referenced(to.meta, to.entries) <==> Owned(l, id) || id in to.lists
    ensures Whole(to)
  {
    hide Referenced, Owned;
  }

  // Every page in use whose bytes are on the platter is vouched for, with those bytes.
  lemma VouchedPages(l: Live, p: Plan, next: Meta, s: State)
    requires Accounted(l) && PlanOk(l, p) && NextMeta(l, p, next) && s.disk.log == []
    requires LandedTo(s.disk, p.lists, NewEntries(l, p), |p.lists|)
    requires p.filePages <= |s.disk.cache|
    ensures var pages := Vouched(s.disk, next, NewEntries(l, p));
            forall id :: id in pages ==> pages[id] == PageAt(s.disk.cache, id)
    ensures VouchesFor(l, s.disk, NewGen(s.disk, next, l, p))
  {
    hide ListPage, NewEntries;
    ReferencedAfter(l, p, next);
    assert s.disk.Settled() == s.disk.durable;
    forall id | id in p.lists
      ensures PageAt(s.disk.durable, id) == s.disk.cache[id]
    {
      var k :| 0 <= k < |p.lists| && p.lists[k] == id;
      assert Landed(s.disk, p.lists, NewEntries(l, p), k);
    }
  }

  // Since h0 nothing has changed but that, once page 0 may have been written, to is the generation on its way.
  ghost predicate Toward(h0: History, h: History, to: Gen) {
    h0.run != [] && Follows(h0, h) &&
    forall i :: |h0.run| <= i < |h.run| ==>
      && h.run[i].current == Last(h0).current
      && (h.run[i].coming == Last(h0).coming || h.run[i].coming == to)
  }

  lemma MetaWrite(h0: History, h: History, to: Gen, ok: bool)
    requires h0.run != [] && |h.run| == |h0.run| + 1 && h0.run <= h.run
    requires h.calls == h0.calls + [PageCall(META_PAGE, ok)]
    requires SameGens(Last(h0), Last(h)) || (Last(h).current == Last(h0).current && Last(h).coming == to)
    ensures Toward(h0, h, to) && (Unfailed(h0, h) <==> ok)
  {
    OneCall(h0, h, PageCall(META_PAGE, ok));
  }

  lemma MetaSync(h0: History, h1: History, h: History, to: Gen, ok: bool)
    requires Toward(h0, h1, to) && Unfailed(h0, h1) && h1.run != [] && |h.run| == |h1.run| + 1 && h1.run <= h.run
    requires |h0.run| < |h1.run| && h.calls == h1.calls + [SyncCall(ok)] && (!ok ==> SameGens(Last(h1), Last(h)))
    ensures Unfailed(h0, h) <==> ok
    ensures if ok then Toward(h0, Before(h), to) else Toward(h0, h, to)
  {
    OneCall(h1, h, SyncCall(ok));
    UnfailedTwice(h0, h1, h);
    assert Before(h).run == h1.run;
    if !ok {
      forall i | |h0.run| <= i < |h.run|
        ensures h.run[i].current == Last(h0).current && (h.run[i].coming == Last(h0).coming || h.run[i].coming == to)
      {
        if i < |h1.run| {
          assert h.run[i] == h1.run[i];
        } else {
          assert Last(h1) == h1.run[|h1.run| - 1];
        }
      }
    }
  }

  // Writes page 0 and fsyncs: from here on the new generation is the one a crash recovers. If either fails, it is
  // one of the two.
  method CommitMeta(file: File, next: Meta, ghost l: Live, ghost p: Plan) returns (ok: bool)
    requires file.Valid() && Accounted(l) && Linked(l, file.Now()) && file.disk.log == []
    requires PlanOk(l, p) && NextMeta(l, p, next) && Fits(|p.lists|, |NewEntries(l, p)|)
    requires next.version == VERSION && next.pageSize == SIZE
    requires LandedTo(file.disk, p.lists, NewEntries(l, p), |p.lists|)
    requires p.filePages <= |file.disk.cache| && p.filePages <= |file.disk.Settled()|
    requires p.lists != [] ==> file.Now().current.Snap?
    modifies file
    ensures file.Valid() && Follows(old(file.Past()), file.Past()) && ReadsBut0(old(file.disk), file.disk)
    ensures ok <==> Unfailed(old(file.Past()), file.Past())
    ensures file.faults == old(file.faults) + if ok then 0 else 1
    ensures var h0, h, to := old(file.Past()), file.Past(), NewGen(old(file.disk), next, l, p);
            if ok then
              && Toward(h0, Before(h), to)
              && file.Now() == State(Committed(old(file.disk), EncodeMeta(next)), to, to)
            else Toward(h0, h, to)
  {
    hide Linked, Accounted, IsRun, PlanOk, Fits, LandedTo, NewGen, MayWrite, EncodeMeta, DecodeMeta, NewEntries,
      Toward, Unfailed, Before, Landed, ReadsBut0, Write, Synced, LandedInPart, Settles, SyncLost, Lands;
    PlanBounds(l, p);
    ghost var s, h := file.Now(), file.Past();
    MetaReads(s.disk, EncodeMeta(next));
    ghost var to := NewGen(file.disk, next, l, p);
    NewGenMayCommit(l, p, next, s);
    ghost var written;
    ok, written := file.WriteAt(PageWrite(META_PAGE, EncodeMeta(next)), Some(to));
    MetaWrite(h, file.Past(), to, ok);
    if !ok {
      return;
    }
    ghost var h1 := file.Past();
    CommitSettles(s, EncodeMeta(next), to, file.Now());
    ghost var d1 := file.disk;
    ok := file.Sync(Some(to));
    SyncReads(s.disk, d1, file.disk);
    MetaSync(h, h1, file.Past(), to, ok);
  }

  // ---------- what a checkpoint has done ----------

  // The new books are what opening the new checkpoint would bring back. The pages in use are the same pages with
  // the same bytes, none leaked and none lost, and the checkpoint vouches for all of them unless one had been
  // rewritten in place and lost.
  ghost predicate Checkpointed(l: Live, s: State, l': Live, s': State) {
    && Ready(l', s') && s'.disk.log == []
    && s'.current.Snap? && l' == Reopened(Recovered(s'.current.meta, s'.current.entries, s'.current.lists))
    && l'.durable.checkpoint == (l.durable.checkpoint + 1) % TWO_TO_THE_32
    && l'.root == l.root
    && Fits(|l'.listPage|, |l'.free|)
    && (forall id :: Owned(l', id) <==> Owned(l, id))
    && (forall id: PageId :: Owned(l, id) ==> PageAt(s'.disk.cache, id) == PageAt(s.disk.cache, id))
    && (forall id :: id in s'.current.pages ==> s'.current.pages[id] == PageAt(s'.disk.cache, id))
    && VouchesFor(l, s.disk, s'.current) && (Agreed(l, s) ==> Whole(s'.current) && Agreed(l', s'))
    && WrittenOut(l', s'.disk)
  }

  // Page 0 and the list pages are on the platter, byte for byte as the books say.
  ghost predicate WrittenOut(l: Live, d: Disk) {
    && d.log == [] && d.cache != [] && d.durable != [] && d.cache[0] == d.durable[0] == EncodeMeta(l.durable)
    && forall k :: 0 <= k < |l.listPage| ==> ListWritten(d, l.listPage, l.free, k)
  }

  ghost predicate ListWritten(d: Disk, lists: seq<PageId>, entries: seq<PageId>, k: nat)
    requires k < |lists|
  {
    && k * CAPACITY <= |entries| && lists[k] < |d.cache| && lists[k] < |d.durable|
    && d.cache[lists[k]] == d.durable[lists[k]] == ListPage(lists, entries, k)
  }

  // ---------- what a checkpoint under way may leave ----------

  // The generation a checkpoint of the books l is about to commit: the live root, the next number, the pages in use
  // as its own and beside them only list pages, each page it vouches for with the bytes reads show.
  ghost predicate InFlight(l: Live, d: Disk, to: Gen) {
    && to.Snap?
    && to.meta.root == l.root
    && to.meta.checkpoint == (l.durable.checkpoint + 1) % TWO_TO_THE_32
    && (forall id :: Owned(Reopened(Recovered(to.meta, to.entries, to.lists)), id) <==> Owned(l, id))
    && (forall id :: id in Referenced(to.meta, to.entries) <==> Owned(l, id) || id in to.lists)
    && (forall id: PageId :: Owned(l, id) && id in to.pages ==> to.pages[id] == PageAt(d.cache, id))
  }

  // While a checkpoint that started in s is under way: the old generation, and none beside it but the new one.
  ghost predicate Keeps(l: Live, s: State, t: State) {
    && t.current == s.current
    && (|| t.coming == s.current
        || t.coming == s.coming
        || (InFlight(l, s.disk, t.coming) && VouchesFor(l, s.disk, t.coming)))
  }

  ghost predicate Through(h0: History, h: History, l: Live) {
    h0.run != [] && Follows(h0, h) && forall i :: |h0.run| <= i < |h.run| ==> Keeps(l, Last(h0), h.run[i])
  }

  ghost predicate ReadsSame(l: Live, d: Disk, d': Disk) {
    |d.cache| <= |d'.cache| && forall id: PageId :: Owned(l, id) ==> PageAt(d'.cache, id) == PageAt(d.cache, id)
  }

  // What a store stopped by a failed fsync or a failed write of page 0 still knows.
  ghost predicate Lingers(l: Live, s: State) {
    && s.current.Snap?
    && s.current.meta == l.durable && s.current.lists == l.listPage && l.free <= s.current.entries
    && (s.coming == s.current || InFlight(l, s.disk, s.coming))
  }

  lemma ThroughStill(h0: History, h1: History, h2: History, l: Live)
    requires Through(h0, h1, l) && Still(h1, h2) && Keeps(l, Last(h0), Last(h1))
    ensures Through(h0, h2, l) && Keeps(l, Last(h0), Last(h2))
  {
    hide InFlight, Whole, Agreed;
    forall i | |h0.run| <= i < |h2.run|
      ensures Keeps(l, Last(h0), h2.run[i])
    {
      if i < |h1.run| {
        assert h2.run[i] == h1.run[i];
      } else {
        assert SameGens(Last(h1), h2.run[i]);
      }
    }
    StillEnds(h1, h2);
  }

  lemma ThroughToward(h0: History, h1: History, h2: History, l: Live, to: Gen)
    requires Through(h0, h1, l) && Toward(h1, h2, to) && Keeps(l, Last(h0), Last(h1))
    requires InFlight(l, Last(h0).disk, to) && VouchesFor(l, Last(h0).disk, to)
    ensures Through(h0, h2, l)
  {
    hide InFlight, Whole, Agreed;
    forall i | |h0.run| <= i < |h2.run|
      ensures Keeps(l, Last(h0), h2.run[i])
    {
      if i < |h1.run| {
        assert h2.run[i] == h1.run[i];
      }
    }
  }

  lemma InFlightAgain(l: Live, d: Disk, d': Disk, to: Gen)
    requires InFlight(l, d, to) && ReadsSame(l, d, d')
    ensures InFlight(l, d', to)
  {
  }

  lemma ReadyLingers(l: Live, s: State, t: State)
    requires Ready(l, s) && SameGens(s, t)
    ensures Lingers(l, t)
  {
  }

  lemma CheckpointIsInFlight(l: Live, s: State, p: Plan, next: Meta, l': Live, s': State)
    requires Accounted(l) && PlanOk(l, p) && next.nextPage == p.nextPage
    requires Checkpointed(l, s, l', s') && s'.current.Snap?
    requires l' == Reopened(Recovered(next, NewEntries(l, p), p.lists))
    requires s'.current.meta == next && s'.current.entries == NewEntries(l, p) && s'.current.lists == p.lists
    ensures InFlight(l, s.disk, s'.current) && VouchesFor(l, s.disk, s'.current)
  {
    hide Accounted, PlanOk, NewEntries, Owned, Referenced, Linked, Agreed, StatusOf, Fits;
    ReferencedAfter(l, p, next);
  }

  lemma UndisturbedReads(l: Live, d: Disk, d1: Disk, d2: Disk)
    requires Undisturbed(l, d, d1)
    ensures ReadsSame(l, d, d1)
    ensures ReadsBut0(d1, d2) ==> ReadsSame(l, d, d2)
    ensures d2.cache == d1.cache ==> ReadsSame(l, d, d2)
  {
  }

  // A checkpoint that failed for good leaves the old generation, and possibly the new one beside it.
  lemma ThroughLingers(h0: History, h: History, l: Live)
    requires Through(h0, h, l) && Ready(l, Last(h0)) && |h.run| > |h0.run|
    requires ReadsSame(l, Last(h0).disk, Last(h).disk)
    ensures Lingers(l, Last(h))
  {
    hide InFlight, Owned, Accounted, ReadsSame, Whole, Agreed;
    var t := Last(h);
    assert Keeps(l, Last(h0), h.run[|h.run| - 1]);
    if InFlight(l, Last(h0).disk, t.coming) {
      InFlightAgain(l, Last(h0).disk, t.disk, t.coming);
    }
  }

  lemma CheckpointedIsReady(l: Live, s: State, l': Live, s': State)
    requires Checkpointed(l, s, l', s')
    ensures Ready(l', s') && Accounted(l')
  {
  }

  lemma CountIsEntries(l: Live, p: Plan)
    requires Accounted(l) && PlanOk(l, p)
    ensures Count(l, p) == |NewEntries(l, p)| < TWO_TO_THE_32
  {
    hide PlanOk, NewEntries, Accounted;
    assert Count(l, p) == |NewEntries(l, p)| by { CountIs(l, p); }
    EntriesAreFree(l, p);
    StatusInRange(l);
    var e := NewEntries(l, p);
    assert forall i :: 0 <= i < |e| ==> e[i] in e;
    DistinctFit(NewEntries(l, p), l.nextPage);
  }

  lemma CountIs(l: Live, p: Plan)
    ensures Count(l, p) == |NewEntries(l, p)|
  {
  }

  lemma StatusInRange(l: Live)
    requires Accounted(l)
    ensures forall id :: id in l.status ==> 1 <= id < l.nextPage
  {
  }

  lemma CommitCheckpoints(l: Live, s: State, p: Plan, next: Meta, s2: State)
    requires Accounted(l) && PlanOk(l, p) && NextMeta(l, p, next)
    requires s2.disk.log == [] && LandedTo(s2.disk, p.lists, NewEntries(l, p), |p.lists|)
    requires p.filePages <= |s2.disk.cache| && p.filePages <= |s2.disk.Settled()|
    requires Undisturbed(l, s.disk, s2.disk) && (Agreed(l, s) ==> Agreed(l, s2))
    requires next.checkpoint == (l.durable.checkpoint + 1) % TWO_TO_THE_32
    requires Fits(|p.lists|, |NewEntries(l, p)|)
    ensures var to := NewGen(s2.disk, next, l, p);
            var l' := Reopened(Recovered(next, NewEntries(l, p), p.lists));
            Checkpointed(l, s, l', State(Committed(s2.disk, EncodeMeta(next)), to, to))
  {
    hide EncodeMeta, PlanOk, LandedTo, NewEntries, Accounted, Owned, Linked, Vouched, Fits, StatusOf, Referenced,
      VouchesFor, WrittenOut;
    PlanBounds(l, p);
    var data := EncodeMeta(next);
    CommitLinks(l, p, next, s2, data);
    CheckpointKeepsPages(l, p, next);
    VouchedPages(l, p, next, s2);
    VouchesBefore(l, s.disk, s2.disk, NewGen(s2.disk, next, l, p));
    if Agreed(l, s) {
      ReferencedAfter(l, p, next);
      VouchesForAll(l, s2, NewGen(s2.disk, next, l, p));
    }
    VouchedIsNotMeta(s2.disk, next, NewEntries(l, p));
    CommitWritesOut(l, p, next, s2.disk);
  }

  lemma CommitWritesOut(l: Live, p: Plan, next: Meta, d: Disk)
    requires Accounted(l) && PlanOk(l, p) && d.log == [] && LandedTo(d, p.lists, NewEntries(l, p), |p.lists|)
    ensures WrittenOut(Reopened(Recovered(next, NewEntries(l, p), p.lists)), Committed(d, EncodeMeta(next)))
  {
    hide EncodeMeta, Accounted, NewEntries, PlanOk, ListWritten, Landed, Committed, PageAt, StatusOf;
    var e, data := NewEntries(l, p), EncodeMeta(next);
    TakenAreSpare(l, p);
    MetaCommitted(d, data);
    forall k | 0 <= k < |p.lists|
      ensures ListWritten(Committed(d, data), p.lists, e, k)
    {
      assert Landed(d, p.lists, e, k);
      ListStays(d, data, p.lists, e, k);
    }
  }

  lemma MetaCommitted(d: Disk, data: Page)
    ensures var t := Committed(d, data);
            && t.log == [] && t.cache != [] && t.durable != [] && t.cache[0] == t.durable[0] == data
  {
    WriteSettles(d, PageWrite(META_PAGE, data));
  }

  lemma ListStays(d: Disk, data: Page, lists: seq<PageId>, entries: seq<PageId>, k: nat)
    requires k < |lists| && Landed(d, lists, entries, k) && lists[k] != META_PAGE
    ensures ListWritten(Committed(d, data), lists, entries, k)
  {
    hide ListPage;
    WriteSettles(d, PageWrite(META_PAGE, data));
  }

  lemma VouchedIsNotMeta(d: Disk, next: Meta, entries: seq<PageId>)
    requires next.nextPage <= |d.cache|
    ensures META_PAGE !in Vouched(d, next, entries)
  {
  }

  // The five steps in order. A fatal failure leaves it open which of the two generations the disk holds; any other
  // leaves everything a crash could recover and everything in use as it was.
  method CommitAll(file: File, l: Live) returns (r: Result<Recovered>, fatal: bool)
    requires file.Valid() && Accounted(l)
    requires Ready(l, file.Now()) || Starting(l, file.Now())
    modifies file
    ensures file.Valid() && Follows(old(file.Past()), file.Past()) && ReadsSame(l, old(file.disk), file.disk)
    ensures fatal <==> !Unfailed(old(file.Past()), file.Past())
    ensures fatal ==> r == Err(Io)
    ensures r.Err? ==> r.error == Io || (r.error == Full && RunsOut(l))
    ensures r.Ok? ==> !RunsOut(l)
    ensures file.faults == old(file.faults) + if r == Err(Io) then 1 else 0
    ensures r.Err? ==> Through(old(file.Past()), file.Past(), l)
    ensures r.Err? && old(Ready(l, file.Now())) ==> Lingers(l, file.Now())
    ensures r.Err? && !fatal ==> Linked(l, file.Now()) && Undisturbed(l, old(file.disk), file.disk)
    ensures r.Err? && !fatal && old(Ready(l, file.Now())) ==> Still(old(file.Past()), file.Past())
    ensures r.Err? && !fatal && old(Agreed(l, file.Now())) ==> Agreed(l, file.Now())
    ensures r.Ok? ==> Checkpointed(l, old(file.Now()), Reopened(r.value), file.Now())
    ensures r.Ok? ==> Through(old(file.Past()), Before(file.Past()), l)
    ensures r.Ok? ==> InFlight(l, old(file.disk), file.Now().current)
    ensures r.Ok? ==> r.value.meta.root == l.root && Accounted(Reopened(r.value)) && Carried(l, Reopened(r.value))
    ensures r.Ok? ==> Ready(Reopened(r.value), file.Now())
  {
    hide Linked, Accounted, Agreed, Undisturbed, IsRun, Starting, Reopened, Checkpointed, Through, Follows, Still,
      Unfailed, ReadsSame, Lingers, InFlight, Keeps, LaidDown, InTurn, Carried, Fits;
    ghost var s, h, d := file.Now(), file.Past(), file.disk;
    var ok := FirstSync(file, l);
    ghost var h1, d1 := file.Past(), file.disk;
    CacheReads(l, d, d1);
    if !ok {
      Abandoned(h, h1, l);
      return Err(Io), true;
    }
    var plan;
    plan, fatal := LayOutList(file, l);
    ghost var s4, h4 := file.Now(), file.Past();
    GoneOn(h, h1, h4, l);
    ReadsTwice(l, d, d1, file.disk);
    if !fatal {
      UndisturbedTwice(l, d, d1, file.disk);
    }
    if plan.Err? {
      Abandoned(h, h4, l);
      return Err(plan.error), fatal;
    }
    var p := plan.value;
    var entries := NewEntries(l, p);
    LaidCount(l, p, s4);
    LaidInTurn(l, p, s4);
    var next := Meta(VERSION, SIZE, l.root, HeadOf(p.lists), |entries|, p.nextPage, p.filePages,
                     (l.durable.checkpoint + 1) % TWO_TO_THE_32);
    ok := Announce(file, l, p, next, s, h);
    fatal := !ok;
    if !ok {
      return Err(Io), true;
    }
    InTurnIsCarried(l, p, next);
    r := Ok(Recovered(next, entries, p.lists));
  }

  lemma LaidInTurn(l: Live, p: Plan, s: State)
    requires LaidDown(l, p, s)
    ensures InTurn(l, p) && Fits(|p.lists|, |NewEntries(l, p)|)
  {
  }

  lemma LaidCount(l: Live, p: Plan, s: State)
    requires LaidDown(l, p, s)
    ensures |NewEntries(l, p)| < TWO_TO_THE_32
  {
  }

  lemma CacheReads(l: Live, d: Disk, d': Disk)
    requires d'.cache == d.cache
    ensures ReadsSame(l, d, d')
  {
  }

  lemma ReadsTwice(l: Live, d: Disk, d1: Disk, d2: Disk)
    requires ReadsSame(l, d, d1) && ReadsSame(l, d1, d2)
    ensures ReadsSame(l, d, d2)
  {
  }

  // From h to h1 and on to h2, the first fsync having succeeded at h1.
  lemma GoneOn(h: History, h1: History, h2: History, l: Live)
    requires Through(h, h1, l) && Keeps(l, Last(h), Last(h1)) && Unfailed(h, h1) && Still(h1, h2)
    ensures Through(h, h2, l) && Keeps(l, Last(h), Last(h2)) && (Unfailed(h, h2) <==> Unfailed(h1, h2))
    ensures |h2.run| >= |h1.run| && Follows(h, h2) && SameGens(Last(h1), Last(h2))
    ensures Still(h, h1) ==> Still(h, h2)
  {
    hide Keeps, InFlight;
    StillEnds(h1, h2);
    ThroughStill(h, h1, h2, l);
    UnfailedTwice(h, h1, h2);
    if Still(h, h1) {
      StillTwice(h, h1, h2);
    }
  }

  lemma Abandoned(h: History, h1: History, l: Live)
    requires Through(h, h1, l) && |h1.run| > |h.run| && ReadsSame(l, Last(h).disk, Last(h1).disk)
    ensures Follows(h, h1) && (Ready(l, Last(h)) ==> Lingers(l, Last(h1)))
  {
    hide Keeps, InFlight, Lingers, ReadsSame, Accounted, Linked;
    if Ready(l, Last(h)) {
      ThroughLingers(h, h1, l);
    }
  }

  // The last two steps, of a checkpoint that began in s with the history h.
  method Announce(file: File, l: Live, p: Plan, next: Meta, ghost s: State, ghost h: History) returns (ok: bool)
    requires file.Valid() && Accounted(l) && Linked(l, file.Now()) && LaidDown(l, p, file.Now())
    requires next == Meta(VERSION, SIZE, l.root, HeadOf(p.lists), |NewEntries(l, p)|, p.nextPage, p.filePages,
                          (l.durable.checkpoint + 1) % TWO_TO_THE_32)
    requires Through(h, file.Past(), l) && s == Last(h) && Keeps(l, s, file.Now()) && Unfailed(h, file.Past())
    requires Follows(h, file.Past()) && |file.run| > |h.run|
    requires Undisturbed(l, s.disk, file.disk) && (Agreed(l, s) ==> Agreed(l, file.Now()))
    modifies file
    ensures file.Valid() && Follows(h, file.Past()) && ReadsSame(l, s.disk, file.disk)
    ensures ok <==> Unfailed(h, file.Past())
    ensures file.faults == old(file.faults) + if ok then 0 else 1
    ensures !ok ==> Through(h, file.Past(), l) && (Ready(l, s) ==> Lingers(l, file.Now()))
    ensures ok ==> var l' := Reopened(Recovered(next, NewEntries(l, p), p.lists));
                   && Checkpointed(l, s, l', file.Now()) && Accounted(l') && Ready(l', file.Now())
                   && Through(h, Before(file.Past()), l) && InFlight(l, s.disk, file.Now().current)
  {
    hide Linked, Accounted, Agreed, Undisturbed, IsRun, Reopened, Checkpointed, Through, Unfailed, ReadsSame,
      Lingers, InFlight, Keeps, PlanOk, LandedTo, NewEntries, Fits, Toward, ReadsBut0, Committed, EncodeMeta, Vouched,
      Whole, InTurn, Referenced, Owned, PagesFor, DecodeMeta;
    ghost var s4, h4 := file.Now(), file.Past();
    ghost var l' := Reopened(Recovered(next, NewEntries(l, p), p.lists));
    PlanBounds(l, p);
    ghost var to := NewGen(s4.disk, next, l, p);
    ghost var done := State(Committed(s4.disk, EncodeMeta(next)), to, to);
    CommitCheckpoints(l, s, p, next, s4);
    CheckpointIsInFlight(l, s, p, next, l', done);
    ok := CommitMeta(file, next, l, p);
    UnfailedTwice(h, h4, file.Past());
    UndisturbedReads(l, s.disk, s4.disk, file.disk);
    if ok {
      ThroughToward(h, h4, Before(file.Past()), l, to);
      CheckpointedIsReady(l, s, l', done);
    } else {
      ThroughToward(h, h4, file.Past(), l, to);
      Abandoned(h, file.Past(), l);
    }
  }

  // Steps two and three: the new free list, in its own pages, and the fsync after it.
  method LayOutList(file: File, l: Live) returns (r: Result<Plan>, fatal: bool)
    requires file.Valid() && Accounted(l) && Linked(l, file.Now()) && file.disk.log == []
    modifies file
    ensures file.Valid() && Still(old(file.Past()), file.Past()) && ReadsSame(l, old(file.disk), file.disk)
    ensures fatal <==> !Unfailed(old(file.Past()), file.Past())
    ensures fatal ==> r == Err(Io)
    ensures r.Err? ==> r.error == Io || (r.error == Full && RunsOut(l))
    ensures r.Ok? ==> !RunsOut(l)
    ensures file.faults == old(file.faults) + if r == Err(Io) then 1 else 0
    ensures !fatal ==> Linked(l, file.Now()) && Undisturbed(l, old(file.disk), file.disk)
    ensures !fatal && old(Agreed(l, file.Now())) ==> Agreed(l, file.Now())
    ensures r.Ok? ==> LaidDown(l, r.value, file.Now())
  {
    hide Linked, Accounted, Agreed, Undisturbed, IsRun, PlanOk, Fits, LandedTo, NewEntries, Still, Unfailed, ReadsSame,
      InTurn, Lands, SyncLost, Synced, Owned, PagesFor, RunsOut;
    ghost var h, d := file.Past(), file.disk;
    var plan := TakeListPages(file, l);
    UndisturbedReads(l, d, file.disk, file.disk);
    fatal := false;
    if plan.Err? {
      return Err(plan.error), false;
    }
    var p := plan.value;
    var entries := NewEntries(l, p);
    CountIsEntries(l, p);
    ghost var h1, d1 := file.Past(), file.disk;
    var ok := WriteListPages(file, l, p, entries);
    SteadyTwice(h, h1, file.Past());
    UndisturbedTwice(l, d, d1, file.disk);
    UndisturbedReads(l, d, file.disk, file.disk);
    if !ok {
      return Err(Io), false;
    }
    StillEnds(h1, file.Past());
    if |p.lists| > 0 {
      ghost var s2, h2 := file.Now(), file.Past();
      ok := file.Sync(None);
      OneCall(h2, file.Past(), SyncCall(ok));
      SyncedToo(h, h2, file.Past());
      UndisturbedReads(l, d, s2.disk, file.disk);
      if !ok {
        return Err(Io), true;
      }
      SyncKeepsLinked(l, s2, file.Now());
      UndisturbedTwice(l, d, s2.disk, file.disk);
      SyncKeepsLanded(s2.disk, p.lists, entries);
    }
    r := Ok(p);
  }

  lemma SyncedToo(h0: History, h1: History, h2: History)
    requires Still(h0, h1) && Unfailed(h0, h1) && Still(h1, h2)
    ensures Still(h0, h2) && (Unfailed(h0, h2) <==> Unfailed(h1, h2))
  {
    StillTwice(h0, h1, h2);
    UnfailedTwice(h0, h1, h2);
  }

  // The list is on the platter, and nothing else is on its way to it.
  ghost predicate LaidDown(l: Live, p: Plan, s: State) {
    && PlanOk(l, p) && Fits(|p.lists|, |NewEntries(l, p)|) && |NewEntries(l, p)| < TWO_TO_THE_32
    && LandedTo(s.disk, p.lists, NewEntries(l, p), |p.lists|) && s.disk.log == []
    && p.filePages <= |s.disk.cache| && p.filePages <= |s.disk.Settled()|
    && (p.lists != [] ==> s.current.Snap?) && InTurn(l, p)
  }

  // The fsync that makes every page written since the last checkpoint durable.
  method FirstSync(file: File, ghost l: Live) returns (ok: bool)
    requires file.Valid()
    requires Ready(l, file.Now()) || Starting(l, file.Now())
    modifies file
    ensures file.Valid() && Through(old(file.Past()), file.Past(), l) && file.disk.cache == old(file.disk.cache)
    ensures Keeps(l, old(file.Now()), file.Now())
    ensures |file.run| > |old(file.run)| && (ok <==> Unfailed(old(file.Past()), file.Past()))
    ensures file.faults == old(file.faults) + if ok then 0 else 1
    ensures ok ==> Linked(l, file.Now()) && file.disk.log == [] && Undisturbed(l, old(file.disk), file.disk)
    ensures ok && old(Agreed(l, file.Now())) ==> Agreed(l, file.Now())
    ensures old(Ready(l, file.Now())) ==> Still(old(file.Past()), file.Past())
    ensures ok ==> file.Now().coming == file.Now().current == old(file.Now()).current
  {
    hide Linked, Accounted, Agreed, Undisturbed, IsRun, Starting, Settles, InFlight, Unfailed, Owned, Whole, Lands,
      VouchesFor, SyncLost, Still, Through, Keeps, Synced;
    ghost var s, h := file.Now(), file.Past();
    ghost var settle := None;
    ReadyOrStarting(l, s);
    if !Ready(l, s) {
      SyncStarts(l, s, State(Synced(s.disk), Blank, Blank));
      settle := Some(Blank);
    }
    ghost var t := Synced(s.disk);
    ok := file.Sync(settle);
    OneCall(h, file.Past(), SyncCall(ok));
    OneMoment(h, file.Past(), l);
    if ok && Ready(l, s) {
      SyncKeepsLinked(l, s, file.Now());
    }
  }

  // One step that leaves both generations, or settles the current one.
  lemma OneMoment(h0: History, h: History, l: Live)
    requires h0.run != [] && Follows(h0, h) && |h.run| == |h0.run| + 1
    requires Last(h).current == Last(h0).current
    requires Last(h).coming == Last(h0).coming || Last(h).coming == Last(h0).current
    ensures Keeps(l, Last(h0), Last(h)) && Through(h0, h, l)
  {
    hide InFlight, VouchesFor;
  }

  lemma ReadyOrStarting(l: Live, s: State)
    requires Ready(l, s) || Starting(l, s)
    ensures Ready(l, s) ==> s.coming == s.current && Linked(l, s)
    ensures !Ready(l, s) ==> s.current.Blank?
  {
  }
}
