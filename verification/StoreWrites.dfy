// Page writes a store makes between checkpoints, against the books it keeps: each spares what a crash would
// recover, and leaves the books and the disk in agreement.
module StoreWrites {
  import opened Bytes
  import opened Outcomes
  import opened PageLayout
  import opened SimulatedDisk
  import opened StoreFormat
  import opened CommitProtocol
  import opened CrashSafety
  import opened PageFile
  import opened LiveState

  ghost predicate Ready(l: Live, s: State) {
    Accounted(l) && Linked(l, s) && s.current.Snap?
  }

  lemma ExpendableMayBeWritten(l: Live, s: State, w: PageWrite)
    requires Ready(l, s) && Expendable(l, s, w.id)
    ensures MayWrite(s, w) && w.id != META_PAGE
    ensures Forget(s.current, w.id) == s.current
  {
  }

  lemma BeyondIsSpare(l: Live, s: State, id: PageId)
    requires Ready(l, s) && Inv(s) && l.nextPage <= id
    ensures Spare(s, id)
  {
    FreshIsExpendable(l, s, id);
  }

  // Growing the file disturbs nothing, since it starts where the handed out pages end or later.
  lemma GrowKeepsLinked(l: Live, s: State, from: u32, t: State)
    requires Accounted(l) && Linked(l, s) && l.nextPage <= from
    requires t.current == s.current && t.coming == s.coming && SameBelow(s.disk, t.disk, from)
    ensures Linked(l, t) && Undisturbed(l, s.disk, t.disk)
    ensures Agreed(l, s) ==> Agreed(l, t)
  {
  }

  lemma OwnedMayBeWritten(l: Live, s: State, w: PageWrite)
    requires Ready(l, s) && Owned(l, w.id)
    ensures MayWrite(s, w)
  {
    assert forall id :: id in l.listPage ==> id in l.status;
  }

  lemma ShorterFreeLinks(l: Live, s: State)
    requires Linked(l, s) && l.free != []
    ensures Linked(TakeFree(l), s)
  {
  }

  lemma PutBackFree(l: Live)
    requires Accounted(l) && l.free != []
    ensures var id := l.free[|l.free| - 1];
            TakeFree(l).free + [id] == l.free && TakeFree(l).status[id := Free] == l.status
  {
  }

  // Writing the page just taken from the free list links the shorter list.
  lemma TakeFreeLinks(l: Live, s: State, data: Page, t: State)
    requires Ready(l, s) && Inv(s) && l.free != []
    requires Wrote(s, PageWrite(l.free[|l.free| - 1], data), t)
    ensures t.current == s.current && Ready(TakeFree(l), t) && Ready(l, t)
    ensures Agreed(l, s) ==> Agreed(TakeFree(l), t) && Agreed(l, t)
  {
    hide Linked, Accounted, Expendable, TakeFree;
    var n := |l.free| - 1;
    FreeIsExpendable(l, s, n);
    TakeFreeIsAccounted(l);
    WriteKeepsLinked(l, s, PageWrite(l.free[n], data), t);
    ShorterFreeLinks(l, t);
  }

  lemma TakeFreshLinks(l: Live, s: State, filePages: u32, data: Page, t: State)
    requires Ready(l, s) && Inv(s) && l.nextPage < filePages && l.filePages <= filePages
    requires filePages <= |s.disk.cache| && filePages <= |s.disk.Settled()|
    requires Wrote(s, PageWrite(l.nextPage, data), t)
    ensures t.current == s.current && Ready(TakeFresh(l, filePages), t) && Ready(l, t)
    ensures Agreed(l, s) ==> Agreed(TakeFresh(l, filePages), t) && Agreed(l, t)
  {
    FreshIsExpendable(l, s, l.nextPage);
    TakeFreshIsAccounted(l, filePages);
    WriteKeepsLinked(l, s, PageWrite(l.nextPage, data), t);
    WriteSettles(s.disk, PageWrite(l.nextPage, data));
  }

  // l' is l with page id taken from the free list, or handed out for the first time.
  ghost predicate Takes(l: Live, l': Live, d: Disk, id: PageId) {
    if l.free != [] then id == l.free[|l.free| - 1] && l' == TakeFree(l)
    else
      && id == l.nextPage < l'.filePages <= |d.cache| && l'.filePages <= |d.Settled()|
      && l.filePages <= l'.filePages
      && l' == TakeFresh(l, l'.filePages)
  }

  lemma LinkedReaches(l: Live, s: State)
    requires Accounted(l) && Linked(l, s)
    ensures l.nextPage <= l.filePages
    ensures l.filePages <= |s.disk.cache| && l.filePages <= |s.disk.Settled()|
  {
  }

  lemma TakesLinks(l: Live, l': Live, s: State, w: PageWrite, t: State)
    requires Ready(l, s) && Inv(s) && Takes(l, l', s.disk, w.id) && Wrote(s, w, t)
    ensures SameGens(s, t) && Ready(l', t) && Ready(l, t)
    ensures Agreed(l, s) ==> Agreed(l', t) && Agreed(l, t)
    ensures PageAt(t.disk.cache, w.id) == PageAt(t.disk.Settled(), w.id) == w.data
  {
    if l.free != [] {
      TakeFreeLinks(l, s, w.data, t);
    } else {
      TakeFreshLinks(l, s, l'.filePages, w.data, t);
    }
    WriteSettles(s.disk, w);
  }

  lemma TakenMayBeWritten(l: Live, l': Live, s: State, w: PageWrite)
    requires Ready(l, s) && Inv(s) && Takes(l, l', s.disk, w.id)
    ensures MayWrite(s, w) && !Owned(l, w.id) && w.id != META_PAGE
  {
    if l.free != [] {
      TakeFreeIsAccounted(l);
      FreeIsExpendable(l, s, |l.free| - 1);
    } else {
      FreshIsExpendable(l, s, w.id);
    }
    ExpendableMayBeWritten(l, s, w);
  }

  lemma WriteUndisturbs(l: Live, d: Disk, w: PageWrite)
    requires !Owned(l, w.id)
    ensures Undisturbed(l, d, Write(d, w))
  {
    WriteSettles(d, w);
  }

  // The same, but for one page in use.
  ghost predicate UndisturbedBut(l: Live, d: Disk, d': Disk, but: PageId) {
    && |d.cache| <= |d'.cache| && |d.Settled()| <= |d'.Settled()|
    && forall id: PageId :: Owned(l, id) && id != but ==>
         PageAt(d'.cache, id) == PageAt(d.cache, id) && PageAt(d'.Settled(), id) == PageAt(d.Settled(), id)
  }

  lemma UndisturbedButSame(l: Live, d: Disk, but: PageId)
    ensures UndisturbedBut(l, d, d, but)
  {
  }

  // Since h0 a crash would have recovered the same checkpoint at every moment, though perhaps not the same bytes on
  // a page rewritten in place.
  ghost predicate Softly(h0: History, h: History) {
    && h0.run != [] && Follows(h0, h) && Unfailed(h0, h)
    && forall i :: |h0.run| <= i < |h.run| ==>
         SameCheckpoint(h.run[i].current, Last(h0).current) && SameCheckpoint(h.run[i].coming, Last(h0).coming)
  }

  lemma SoftlySame(h: History)
    requires h.run != []
    ensures Softly(h, h)
  {
  }

  // What writing an owned page does to the books and the disk, whether it succeeds or not.
  lemma OwnedWrite(l: Live, s: State, w: PageWrite, written: Option<Page>, h0: History, h: History, ok: bool)
    requires Ready(l, s) && Owned(l, w.id) && h0.run != [] && s == Last(h0)
    requires |h.run| == |h0.run| + 1 && h0.run <= h.run && h.calls == h0.calls + [PageCall(w.id, ok)]
    requires written.None? ==> Last(h) == s
    requires written.Some? ==> Wrote(s, PageWrite(w.id, written.value), Last(h))
    requires written.Some? ==> LandedInPart(s.disk.cache, w, written.value)
    ensures Ready(l, Last(h)) && (Agreed(l, s) ==> Agreed(l, Last(h)))
    ensures Last(h).current == s.current || Last(h).current == Forget(s.current, w.id)
    ensures WroteInPart(s.disk, w, Last(h).disk) && UndisturbedBut(l, s.disk, Last(h).disk, w.id) && Softly(h0, h)
  {
    hide Accounted, Linked, Agreed, LandedInPart, Softly, UndisturbedBut, Write;
    BothSame(l, s);
    if written.Some? {
      WriteKeepsLinked(l, s, PageWrite(w.id, written.value), Last(h));
      WriteUndisturbsBut(l, s.disk, PageWrite(w.id, written.value));
    } else {
      UndisturbedButSame(l, s.disk, w.id);
    }
    OneSoftCall(h0, h, w.id, ok);
  }

  lemma OneSoftCall(h0: History, h: History, id: PageId, ok: bool)
    requires h0.run != [] && |h.run| == |h0.run| + 1 && h0.run <= h.run && h.calls == h0.calls + [PageCall(id, ok)]
    requires SameCheckpoint(Last(h).current, Last(h0).current) && SameCheckpoint(Last(h).coming, Last(h0).coming)
    requires id != META_PAGE
    ensures Softly(h0, h)
  {
    hide SameCheckpoint;
    OneCall(h0, h, PageCall(id, ok));
  }

  lemma BothSame(l: Live, s: State)
    requires Ready(l, s)
    ensures s.current == s.coming
  {
  }

  lemma WriteUndisturbsBut(l: Live, d: Disk, w: PageWrite)
    ensures UndisturbedBut(l, d, Write(d, w), w.id)
  {
    WriteSettles(d, w);
  }

  // Writes the page that turns the books l into l'. A failed write leaves them at l.
  method WriteTaken(file: File, w: PageWrite, ghost l: Live, ghost l': Live) returns (ok: bool)
    requires file.Valid() && Ready(l, file.Now()) && Takes(l, l', file.disk, w.id)
    modifies file
    ensures file.Valid() && Still(old(file.Past()), file.Past()) && Unfailed(old(file.Past()), file.Past())
    ensures Undisturbed(l, old(file.disk), file.disk)
    ensures !Owned(l, w.id) && file.faults == old(file.faults) + if ok then 0 else 1
    ensures Ready(l, file.Now()) && (old(Agreed(l, file.Now())) ==> Agreed(l, file.Now()))
    ensures ok ==> Ready(l', file.Now()) && (old(Agreed(l, file.Now())) ==> Agreed(l', file.Now()))
    ensures ok ==> PageAt(file.disk.cache, w.id) == PageAt(file.disk.Settled(), w.id) == w.data
  {
    hide Ready, Agreed, MayWrite, Inv, Takes, Still, Unfailed, Undisturbed, Owned, IsRun, LandedInPart;
    ghost var h := file.Past();
    ghost var s := file.Now();
    UndisturbedSame(l, file.disk);
    RunIsSafe(file.run, |file.run| - 1);
    TakenMayBeWritten(l, l', s, w);
    ghost var written;
    ok, written := file.WriteAt(w, None);
    OneCall(h, file.Past(), PageCall(w.id, ok));
    if written.Some? {
      WriteUndisturbs(l, s.disk, PageWrite(w.id, written.value));
      TakesLinks(l, l', s, PageWrite(w.id, written.value), file.Now());
    }
  }

  // Extends the file past every page the books know. A failed extension may leave some zeros behind.
  method GrowFile(file: File, from: u32, to: u32, ghost l: Live) returns (ok: bool)
    requires file.Valid() && Ready(l, file.Now()) && l.nextPage <= from
    modifies file
    ensures file.Valid() && Still(old(file.Past()), file.Past()) && Unfailed(old(file.Past()), file.Past())
    ensures Ready(l, file.Now()) && (old(Agreed(l, file.Now())) ==> Agreed(l, file.Now()))
    ensures Undisturbed(l, old(file.disk), file.disk)
    ensures ok && from < to ==> to <= |file.disk.cache| && to <= |file.disk.Settled()|
    ensures file.faults == old(file.faults) + if ok then 0 else 1
  {
    hide Linked, Agreed, Inv, Spare, SameBelow, Undisturbed, Still, Unfailed, IsRun;
    ghost var h := file.Past();
    ghost var s := file.Now();
    RunIsSafe(file.run, |file.run| - 1);
    forall n: PageId | from <= n < to
      ensures Spare(s, n)
    {
      BeyondIsSpare(l, s, n);
    }
    ok := file.Grow(from, to);
    StillEnds(h, file.Past());
    GrowKeepsLinked(l, s, from, file.Now());
    if ok && from < to {
      ZeroBetweenReaches(file.disk, from, to);
    }
  }

  lemma ReleaseLinks(l: Live, s: State, id: PageId)
    requires Ready(l, s) && Owned(l, id) && id != l.root
    ensures Ready(Release(l, id), s)
    ensures Agreed(l, s) ==> Agreed(Release(l, id), s)
  {
    ReleaseIsAccounted(l, id);
  }
}
