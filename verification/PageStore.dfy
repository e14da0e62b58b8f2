// The page store (internal/pagestore): hands out pages, takes them back, and commits with a checkpoint. Its methods
// change the store's fields and the file step by step; every disk change is a step of the commit protocol, so the
// run recorded by the file stays one that CrashSafety covers, also when a crash cuts a method short.
module PageStore {
  import opened Bytes
  import opened Outcomes
  import opened PageLayout
  import opened SimulatedDisk
  import opened StoreFormat
  import opened Recovery
  import opened CommitProtocol
  import opened CrashSafety
  import opened PageFile
  import opened LiveState
  import opened CheckpointPlan
  import opened StoreWrites
  import opened Checkpointing
  import opened Opening

  // All of a store's fields but the file.
  datatype Books = Books(live: Live, dirty: bool, closed: bool, poisoned: Option<Error>)

  // The page is the next one to hand out, blank, owned from now on and by nobody before.
  ghost predicate AllocatedFrom(b: Books, p: Page, kind: byte, b': Books) {
    && b.poisoned.None? && !b.closed && b'.poisoned.None? && !b'.closed && b'.dirty
    && p == NewPage(Id(p), kind) && !Owned(b.live, Id(p))
    && if b.live.free != [] then
         && Id(p) == b.live.free[|b.live.free| - 1]
         && b'.live == TakeFree(b.live)
       else
         && Id(p) == b.live.nextPage < MAX_PAGES
         && b'.live == TakeFresh(b.live, Reach(b.live))
  }

  // How long the file has to be to hold one more new page.
  function Reach(l: Live): u32 {
    if l.nextPage < l.filePages then l.filePages else GrowTo(l.filePages)
  }

  class Store {
    const file: File
    var durable: Meta
    var root: PageId
    var nextPage: PageId
    var filePages: u32
    var free: seq<PageId>
    var pending: seq<PageId>
    var listPage: seq<PageId>
    var status: map<PageId, PageState>
    var dirty: bool
    var closed: bool
    var poisoned: Option<Error>

    function View(): Live
      reads this
    {
      Live(durable, root, nextPage, filePages, free, pending, listPage, status)
    }

    ghost function All(): Books
      reads this
    {
      Books(View(), dirty, closed, poisoned)
    }

    ghost predicate Usable()
      reads this
    {
      poisoned.None? && !closed
    }

    // The books balance, and they agree with the checkpoint a crash would recover; after a failure that poisoned the
    // store, with one of the two.
    ghost predicate Valid()
      reads this, file
    {
      && file.Valid()
      && Accounted(View())
      && if poisoned.None? then Ready(View(), file.Now()) else Lingers(View(), file.Now())
    }

    // A store built on the file by load or create.
    constructor (file: File, l: Live)
      ensures this.file == file && View() == l
      ensures !dirty && !closed && poisoned.None?
    {
      this.file := file;
      durable, root, nextPage, filePages := l.durable, l.root, l.nextPage, l.filePages;
      free, pending, listPage, status := l.free, l.pending, l.listPage, l.status;
      dirty, closed, poisoned := false, false, None;
    }

    // ---------- guards ----------

    function UsableError(): (err: Option<Error>)
      reads this
      ensures err.None? <==> Usable()
    {
      if poisoned.Some? then Some(Poisoned(poisoned.value)) else if closed then Some(Closed) else None
    }

    function OwnedError(id: PageId): (err: Option<Error>)
      reads this
    {
      if id == META_PAGE || id >= nextPage then Some(BadPageId)
      else if id in status then Some(NotAllocated)
      else None
    }

    method SetRoot(id: PageId) returns (err: Option<Error>)
      requires Valid()
      modifies this`root, this`dirty
      ensures Valid()
      ensures err.None? <==> old(Usable()) && (id == NO_PAGE || old(Owned(View(), id)))
      ensures err.None? ==> View() == old(View()).(root := id) && dirty
      ensures err.Some? ==> All() == old(All())
      ensures err.Some? && old(Usable()) ==> err == Some(if InRange(View(), id) then NotAllocated else BadPageId)
      ensures !old(Usable()) ==> err == old(UsableError()) && err.Some?
    {
      err := UsableError();
      if err.Some? {
        return;
      }
      if id != NO_PAGE {
        err := OwnedError(id);
        if err.Some? {
          return;
        }
      }
      root := id;
      dirty := true;
    }

    // What was last written to an owned page is what a read returns.
    method Read(id: PageId) returns (r: Result<Page>)
      requires Valid()
      modifies file`faults
      ensures Valid()
      ensures r.Ok? ==> Usable() && Owned(View(), id) && r.value == PageAt(file.disk.cache, id)
      ensures file.faults == old(file.faults) + if r == Err(Io) then 1 else 0
      ensures r.Err? && Usable() ==>
                r.error == if Owned(View(), id) then Io else if InRange(View(), id) then NotAllocated else BadPageId
      ensures !Usable() ==> r.Err? && UsableError() == Some(r.error)
    {
      var err := UsableError();
      if err.Some? {
        return Err(err.value);
      }
      err := OwnedError(id);
      if err.Some? {
        return Err(err.value);
      }
      r := file.Read(id);
    }

    // Any owned page may be written, also one the last checkpoint references: from then on the checkpoint no longer
    // vouches for that page's bytes, and for that page's only.
    method Write(p: Page) returns (err: Option<Error>)
      requires Valid()
      modifies file, this`dirty
      ensures Valid() && View() == old(View())
      ensures err.None? ==> old(Usable()) && Owned(View(), Id(p)) && dirty
      ensures err.None? ==> file.disk == SimulatedDisk.Write(old(file.disk), PageWrite(Id(p), p))
      ensures err.Some? ==> All() == old(All())
      ensures err.Some? && err != Some(Io) ==> file.run == old(file.run)
      ensures err.Some? && old(Usable()) ==>
                err == Some(if Owned(View(), Id(p)) then Io
                            else if InRange(View(), Id(p)) then NotAllocated else BadPageId)
      ensures !old(Usable()) ==> err == old(UsableError()) && err.Some?
      ensures err == Some(Io) ==> WroteInPart(old(file.disk), PageWrite(Id(p), p), file.disk)
      ensures UndisturbedBut(View(), old(file.disk), file.disk, Id(p))
      ensures file.Now().current == old(file.Now().current) ||
              file.Now().current == Forget(old(file.Now().current), Id(p))
      ensures old(Agreed(View(), file.Now())) ==> Agreed(View(), file.Now())
      ensures Softly(old(file.Past()), file.Past())
      ensures file.faults == old(file.faults) + if err == Some(Io) then 1 else 0
      ensures !old(Usable()) ==> file.Past() == old(file.Past())
    {
      hide Linked, Accounted, Agreed, Inv, IsRun, MayWrite, Softly, UndisturbedBut, LandedInPart, SimulatedDisk.Write,
        Lingers;
      ghost var h, d := file.Past(), file.disk;
      SoftlySame(h);
      UndisturbedButSame(View(), d, Id(p));
      err := UsableError();
      if err.Some? {
        return;
      }
      err := OwnedError(Id(p));
      if err.Some? {
        return;
      }
      ghost var s := file.Now();
      OwnedMayBeWritten(View(), s, PageWrite(Id(p), p));
      ghost var written;
      var ok;
      ok, written := file.WriteAt(PageWrite(Id(p), p), None);
      OwnedWrite(View(), s, PageWrite(Id(p), p), written, h, file.Past(), ok);
      if !ok {
        return Some(Io);
      }
      dirty := true;
      err := None;
    }

    // Takes a page off the free list, else the next new one, extending the file when it is too short.
    method TakePage() returns (err: Option<Error>, id: PageId)
      requires Valid() && Usable()
      modifies this`free, this`status, this`nextPage, this`filePages, file
      ensures file.Valid() && Still(old(file.Past()), file.Past()) && Unfailed(old(file.Past()), file.Past())
      ensures Ready(old(View()), file.Now()) && Undisturbed(old(View()), old(file.disk), file.disk)
      ensures old(Agreed(View(), file.Now())) ==> Agreed(old(View()), file.Now())
      ensures err.Some? ==> All() == old(All()) && (err == Some(Io) || err == Some(Full))
      ensures err == Some(Full) <==> old(free) == [] && old(nextPage) == MAX_PAGES
      ensures err == Some(Full) ==> file.Past() == old(file.Past())
      ensures file.faults == old(file.faults) + if err == Some(Io) then 1 else 0
      ensures err.None? ==> Takes(old(View()), View(), file.disk, id)
      ensures err.None? && old(free) == [] ==> filePages == Reach(old(View()))
    {
      hide Linked, Agreed, Accounted, IsRun, Still, Unfailed, Undisturbed, Owned;
      ghost var l := View();
      StillSame(file.Past());
      UndisturbedSame(l, file.disk);
      LinkedReaches(l, file.Now());
      id := NO_PAGE;
      if |free| > 0 {
        id := free[|free| - 1];
        free := free[..|free| - 1];
        status := status - {id};
        return None, id;
      }
      if nextPage >= MAX_PAGES {
        return Some(Full), id;
      }
      if nextPage >= filePages {
        var grown := GrowTo(filePages);
        if grown <= nextPage {
          return Some(Full), id;
        }
        var grew := GrowFile(file, filePages, grown, l);
        if !grew {
          return Some(Io), id;
        }
        filePages := grown;
      }
      LinkedReaches(l, file.Now());
      id := nextPage;
      nextPage := id + 1;
      err := None;
    }

    // Hands out a page: the last one on the free list, else the next new one.
    method Allocate(kind: byte) returns (r: Result<Page>)
      requires Valid()
      modifies this, file
      ensures Valid() && Still(old(file.Past()), file.Past()) && Unfailed(old(file.Past()), file.Past())
      ensures Undisturbed(old(View()), old(file.disk), file.disk)
      ensures old(Agreed(View(), file.Now())) ==> Agreed(View(), file.Now())
      ensures r.Err? ==> All() == old(All())
      ensures file.faults == old(file.faults) + if r == Err(Io) then 1 else 0
      ensures r.Ok? ==> pending == old(pending) && listPage == old(listPage) && root == old(root)
      ensures r == Err(Full) <==> old(Usable()) && old(free) == [] && old(nextPage) == MAX_PAGES
      ensures r.Err? && old(Usable()) ==> r.error == Io || r.error == Full
      ensures r == Err(Full) || !old(Usable()) ==> file.Past() == old(file.Past())
      ensures !old(Usable()) ==> r.Err? && old(UsableError()) == Some(r.error)
      ensures r.Ok? ==> AllocatedFrom(old(All()), r.value, kind, All())
      ensures r.Ok? ==>
                PageAt(file.disk.cache, Id(r.value)) == PageAt(file.disk.Settled(), Id(r.value)) == r.value
    {
      hide Linked, Agreed, Accounted, NewPage, IsRun, GrowTo, Undisturbed, Id, Still, Unfailed, Lingers, Owned,
        PageAt, Apply;
      ghost var h, d := file.Past(), file.disk;
      StillSame(h);
      UndisturbedSame(View(), d);
      var err := UsableError();
      if err.Some? {
        return Err(err.value);
      }
      ghost var before := All();
      ghost var l := View();
      var reused := |free| > 0;
      var filePages0 := filePages;
      var id;
      err, id := TakePage();
      if err.Some? {
        return Err(err.value);
      }
      ghost var h1, d1 := file.Past(), file.disk;
      var page := NewPage(id, kind);
      var ok := WriteTaken(file, PageWrite(id, page), l, View());
      SteadyTwice(h, h1, file.Past());
      UndisturbedTwice(l, d, d1, file.disk);
      if !ok {
        if reused {
          free := free + [id];
          status := status[id := PageState.Free];
          PutBackFree(l);
        } else {
          nextPage := id;
          filePages := filePages0;
        }
        return Err(Io);
      }
      dirty := true;
      assert AllocatedFrom(before, page, kind, All());
      r := Ok(page);
    }

    // Takes a page back. Its bytes stay as they are, and it is not handed out again before the next checkpoint.
    method Free(id: PageId) returns (err: Option<Error>)
      requires Valid()
      modifies this`pending, this`status, this`dirty
      ensures Valid()
      ensures err.None? <==> old(Usable()) && old(Owned(View(), id)) && id != root
      ensures err.None? ==> View() == Release(old(View()), id) && dirty
      ensures err.None? ==> pending == old(pending) + [id] && id in status && status[id] == Pending
      ensures err.Some? ==> All() == old(All())
      ensures old(Usable()) ==>
                && (err == Some(FreeMeta) <==> id == META_PAGE)
                && (err == Some(BadPageId) <==> id >= nextPage && id != META_PAGE)
                && (err == Some(DoubleFree) <==> old(id in pending || id in free))
                && (err == Some(NotAllocated) <==> id in listPage)
                && (err == Some(FreeRoot) <==> id == root && id != NO_PAGE)
      ensures !old(Usable()) ==> err == old(UsableError()) && err.Some?
    {
      hide Linked, Inv;
      err := UsableError();
      if err.Some? {
        return;
      }
      if id == META_PAGE {
        return Some(FreeMeta);
      }
      if id >= nextPage {
        return Some(BadPageId);
      }
      if id in status {
        return Some(if status[id] == FreeListPage then NotAllocated else DoubleFree);
      }
      if id == root {
        return Some(FreeRoot);
      }
      ghost var l := View();
      ReleaseIsAccounted(l, id);
      ReleaseLinks(l, file.Now(), id);
      pending := pending + [id];
      status := status[id := Pending];
      dirty := true;
      err := None;
    }

    // Makes what has been written durable. If that fails nobody knows what the platter holds of it, and the store is
    // poisoned; what a crash would recover is what it was.
    method Sync() returns (err: Option<Error>)
      requires Valid()
      modifies file, this`poisoned
      ensures Valid() && View() == old(View()) && Still(old(file.Past()), file.Past())
      ensures file.disk.cache == old(file.disk.cache)
      ensures err.None? ==> old(Usable()) && Usable() && file.disk == Synced(old(file.disk))
      ensures err.None? && old(Agreed(View(), file.Now())) ==> Agreed(View(), file.Now())
      ensures old(Usable()) ==> (poisoned.Some? <==> !Unfailed(old(file.Past()), file.Past()))
      ensures err.Some? && old(Usable()) ==> err == Some(Poisoned(Io)) && poisoned == Some(Io)
      ensures file.faults == old(file.faults) + if old(Usable()) && err.Some? then 1 else 0
      ensures !old(Usable()) ==>
                && err == old(UsableError()) && err.Some?
                && file.Past() == old(file.Past()) && poisoned == old(poisoned)
    {
      hide Linked, Accounted, Inv, Still, Unfailed, Lingers, IsRun, Agreed;
      ghost var h := file.Past();
      StillSame(h);
      err := UsableError();
      if err.Some? {
        return;
      }
      ghost var s := file.Now();
      var ok := file.Sync(None);
      OneCall(h, file.Past(), SyncCall(ok));
      if !ok {
        poisoned := Some(Io);
        ReadyLingers(View(), s, file.Now());
        return Some(Poisoned(Io));
      }
      SyncKeepsLinked(View(), s, file.Now());
      err := None;
    }

    // The whole of a checkpoint. A fatal failure leaves it open whether the checkpoint took place.
    method Commit() returns (err: Option<Error>, fatal: bool)
      requires file.Valid() && Accounted(View())
      requires Ready(View(), file.Now()) || Starting(View(), file.Now())
      modifies this, file
      ensures file.Valid() && Follows(old(file.Past()), file.Past()) && Accounted(View())
      ensures ReadsSame(old(View()), old(file.disk), file.disk)
      ensures closed == old(closed) && poisoned == old(poisoned)
      ensures fatal <==> !Unfailed(old(file.Past()), file.Past())
      ensures fatal ==> err == Some(Io)
      ensures err.Some? ==> All() == old(All())
      ensures err.Some? ==> err == Some(Io) || (err == Some(Full) && RunsOut(View()))
      ensures err.None? ==> !old(RunsOut(View()))
      ensures file.faults == old(file.faults) + if err == Some(Io) then 1 else 0
      ensures err.Some? ==> Through(old(file.Past()), file.Past(), old(View()))
      ensures err.Some? && old(Ready(View(), file.Now())) ==> Lingers(View(), file.Now())
      ensures err.Some? && !fatal ==> Linked(View(), file.Now()) && Undisturbed(View(), old(file.disk), file.disk)
      ensures err.Some? && !fatal && old(Ready(View(), file.Now())) ==> Still(old(file.Past()), file.Past())
      ensures err.Some? && !fatal && old(Agreed(View(), file.Now())) ==> Agreed(View(), file.Now())
      ensures err.None? ==> Through(old(file.Past()), Before(file.Past()), old(View()))
      ensures err.None? ==> InFlight(old(View()), old(file.disk), file.Now().current)
      ensures err.None? ==> Checkpointed(old(View()), old(file.Now()), View(), file.Now()) && !dirty
      ensures err.None? ==> Carried(old(View()), View())
    {
      hide Linked, Agreed, IsRun, Starting, Checkpointed, Accounted, MetaOk, Still, Unfailed, Follows, Through, Lingers,
        ReadsSame, Undisturbed, InFlight, Before, Carried, StatusOf, RunsOut, PageAt, Apply, Lands, UsableError, Owned,
        Reopened, Ready;
      var r;
      r, fatal := CommitAll(file, View());
      if r.Err? {
        return Some(r.error), fatal;
      }
      Adopt(r.value);
      err := None;
    }

    // The checkpoint just committed is the durable one, and everything it lists may be handed out again.
    method Adopt(next: Recovered)
      requires next.meta.root == root
      modifies this
      ensures View() == Reopened(next) && !dirty && closed == old(closed) && poisoned == old(poisoned)
    {
      durable := next.meta;
      nextPage := next.meta.nextPage;
      filePages := next.meta.filePages;
      free := next.entries;
      pending := [];
      listPage := next.lists;
      status := StatusOf(next.entries, next.lists);
      dirty := false;
    }

    // Commits. It poisons the store exactly if an fsync or the write of page 0 failed, and then a crash recovers the
    // old checkpoint or the new one; after any other failure it is as if the checkpoint had not been asked for.
    method Checkpoint() returns (err: Option<Error>)
      requires file.Valid() && Accounted(View())
      requires Usable() ==> Ready(View(), file.Now()) || Starting(View(), file.Now())
      modifies this, file
      ensures file.Valid() && Follows(old(file.Past()), file.Past()) && Accounted(View()) && closed == old(closed)
      ensures old(Valid()) || err.None? ==> Valid()
      ensures ReadsSame(old(View()), old(file.disk), file.disk)
      ensures !old(Usable()) ==>
                err == old(UsableError()) && err.Some? && All() == old(All()) && file.Past() == old(file.Past())
      ensures old(Usable()) ==> (poisoned.Some? <==> !Unfailed(old(file.Past()), file.Past()))
      ensures err.None? ==> Checkpointed(old(View()), old(file.Now()), View(), file.Now()) && !dirty && Usable()
      ensures err.None? ==> Through(old(file.Past()), Before(file.Past()), old(View()))
      ensures err.None? ==> InFlight(old(View()), old(file.disk), file.Now().current) && !old(RunsOut(View()))
      ensures err.None? ==> Carried(old(View()), View())
      ensures err.Some? ==> View() == old(View()) && dirty == old(dirty)
      ensures err.Some? && old(Usable()) ==> Through(old(file.Past()), file.Past(), old(View()))
      ensures err.Some? && old(Usable()) ==>
                if Usable() then err == Some(Io) || (err == Some(Full) && RunsOut(View()))
                else err == Some(Poisoned(Io)) && poisoned == Some(Io)
      ensures file.faults == old(file.faults) + if old(Usable()) && err.Some? && err != Some(Full) then 1 else 0
      ensures err.Some? && Usable() ==> Undisturbed(View(), old(file.disk), file.disk)
      ensures err.Some? && Usable() && old(Valid()) ==> Still(old(file.Past()), file.Past())
      ensures err.Some? && Usable() && old(Agreed(View(), file.Now())) ==> Agreed(View(), file.Now())
    {
      hide Linked, Accounted, Agreed, Checkpointed, IsRun, Starting, Still, Unfailed, Follows, Through, Lingers,
        ReadsSame, Undisturbed, InFlight, Before, Carried;
      ghost var h := file.Past();
      StillSame(h);
      CacheReads(View(), file.disk, file.disk);
      err := UsableError();
      if err.Some? {
        return;
      }
      var fatal;
      err, fatal := Commit();
      if err.Some? && fatal {
        poisoned := Some(Io);
        return Some(Poisoned(Io));
      }
      if err.None? {
        CheckpointedIsReady(old(View()), old(file.Now()), View(), file.Now());
      } else if old(Ready(View(), file.Now())) {
        StillEnds(h, file.Past());
      }
    }

    // Commits what is not yet committed, and closes. A poisoned store closes without touching the file.
    method Close() returns (err: Option<Error>)
      requires Valid()
      modifies this, file
      ensures Valid() && closed && Follows(old(file.Past()), file.Past())
      ensures ReadsSame(old(View()), old(file.disk), file.disk)
      ensures file.faults == old(file.faults) ==> err.None? || err == Some(Full) || old(poisoned).Some?
      ensures err.None? ==> file.faults == old(file.faults)
      ensures old(closed) ==> err.None? && All() == old(All())
      ensures old(closed || poisoned.Some? || !dirty) ==>
                && file.Past() == old(file.Past())
                && poisoned == old(poisoned) && View() == old(View()) && dirty == old(dirty)
      ensures old(Usable() && !dirty) ==> err.None? || err == Some(Io)
      ensures !old(closed) && poisoned.Some? ==> err == Some(Poisoned(poisoned.value))
      ensures old(Usable()) ==> (poisoned.Some? <==> !Unfailed(old(file.Past()), file.Past()))
      ensures old(Usable()) && dirty ==> err.Some? && View() == old(View())
      ensures old(Usable()) && poisoned.Some? ==> dirty && poisoned == Some(Io)
      ensures old(Usable()) && dirty ==> Through(old(file.Past()), file.Past(), old(View()))
      ensures old(Usable()) && dirty && poisoned.None? ==>
                && (err == Some(Io) || (err == Some(Full) && RunsOut(View())))
                && Still(old(file.Past()), file.Past()) && Undisturbed(View(), old(file.disk), file.disk)
      ensures old(Usable() && dirty) && !dirty ==>
                && Checkpointed(old(View()), old(file.Now()), View(), file.Now())
                && InFlight(old(View()), old(file.disk), file.Now().current) && Carried(old(View()), View())
                && Through(old(file.Past()), Before(file.Past()), old(View()))
                && (err.None? || err == Some(Io))
    {
      hide Linked, Accounted, Agreed, Checkpointed, IsRun, Still, Unfailed, Follows, Through, Lingers, ReadsSame,
        Undisturbed, InFlight, Before, Carried;
      StillSame(file.Past());
      CacheReads(View(), file.disk, file.disk);
      if closed {
        return None;
      }
      err := None;
      if poisoned.None? && dirty {
        err := Checkpoint();
      }
      closed := true;
      var closes := file.Close();
      if poisoned.Some? {
        return Some(Poisoned(poisoned.value));
      }
      if err.Some? {
        return;
      }
      err := if closes then None else Some(Io);
    }

    method Discard() returns (err: Option<Error>)
      requires Valid()
      modifies this`closed, file`faults
      ensures Valid() && closed && View() == old(View())
      ensures if old(closed) then err.None? else err.None? || err == Some(Io)
      ensures file.faults == old(file.faults) + if err.Some? then 1 else 0
    {
      if closed {
        return None;
      }
      closed := true;
      var closes := file.Close();
      err := if closes then None else Some(Io);
    }

    // Reads everything back and compares, whatever state the store and the file are in. With no read failing, it passes
    // exactly if the file opens as the checkpoint the store believes in and the books agree with it; and of a usable
    // store in good order it finds nothing wrong.
    method Verify() returns (err: Option<Error>)
      modifies file`faults
      ensures !Usable() ==> err == UsableError() && err.Some? && file.faults == old(file.faults)
      ensures Usable() && file.faults != old(file.faults) ==> err == Some(Io)
      ensures Usable() && file.faults == old(file.faults) ==>
                if file.disk.cache != [] && DecodeMeta(file.disk.cache[0]).Err? then
                  err == Some(DecodeMeta(file.disk.cache[0]).error)
                else
                  && (err.None? <==> Recover(file.disk.cache).Ok? && Believes(Recover(file.disk.cache).value))
                  && (err.Some? ==> err == Some(Corrupt))
      ensures old(Valid()) ==> Valid() && (Usable() ==> err.None? || err == Some(Io))
    {
      hide Linked, Accounted, IsRun, Inv, Recover, DecodeMeta, RecoverFrom, LiveAgrees, Lingers;
      err := UsableError();
      if err.Some? {
        return;
      }
      var img := file.disk.cache;
      if Valid() {
        RunIsSafe(file.run, |file.run| - 1);
        ReadyReads(View(), file.Now());
      }
      RecoverParts(img);
      var m := ReadMeta(file);
      if m.Err? {
        return Some(m.error);
      }
      FoundHasMeta(img, m.value);
      if m.value != durable {
        return Some(Corrupt);
      }
      var found := CheckFile(file, m.value);
      if found.Err? {
        return Some(found.error);
      }
      var onDisk := file.PageCount();
      if onDisk.Err? {
        return Some(onDisk.error);
      }
      var ok := VerifyLive(View(), onDisk.value, found.value.entries, found.value.lists);
      err := if ok then None else Some(Corrupt);
    }

    // What was read from the file is the last checkpoint, and the books agree with it.
    ghost predicate Believes(r: Recovered)
      reads this, file
    {
      r.meta == durable && LiveAgrees(View(), Recovery.PageCount(file.disk.cache), r.entries, r.lists)
    }
  }

  lemma RecoverParts(img: Image)
    ensures img != [] && DecodeMeta(img[0]).Ok? ==> Recover(img) == RecoverFrom(img, DecodeMeta(img[0]).value)
    ensures img == [] || DecodeMeta(img[0]).Err? ==> Recover(img).Err?
    ensures img != [] && DecodeMeta(img[0]).Err? ==> Recover(img) == Err(DecodeMeta(img[0]).error)
  {
    hide DecodeMeta, RecoverFrom;
  }

  lemma FoundHasMeta(img: Image, m: Meta)
    ensures RecoverFrom(img, m).Ok? ==> RecoverFrom(img, m).value.meta == m && m.nextPage != 0
    ensures RecoverFrom(img, m).Err? ==> RecoverFrom(img, m).error == Corrupt
  {
    hide ReadChain, FreeSetOk;
    if MetaOk(m, Recovery.PageCount(img)) {
      WalkFails(img, m.nextPage, m.freeList, {});
    }
  }

  // What a usable store reads back is its own checkpoint, and its books agree with it.
  lemma ReadyReads(l: Live, s: State)
    requires Ready(l, s) && Inv(s)
    ensures Recover(s.disk.cache) == Ok(Recovered(l.durable, s.current.entries, s.current.lists))
    ensures l.durable.nextPage != 0
    ensures LiveAgrees(l, Recovery.PageCount(s.disk.cache), s.current.entries, s.current.lists)
  {
    hide Recover, DecodeMeta, Chain;
    HeldYields(s);
    assert forall k :: 0 <= k < |l.free| ==> l.free[k] == s.current.entries[k];
  }

  // ---------- opening ----------

  // Opens a file that is not blank. A file that any check rejects is not written to; one that passes them all comes
  // back as a store on exactly the checkpoint read, which by then is the one on the platter.
  method Load(file: File) returns (r: Result<Store>)
    requires file.Valid()
    modifies file
    ensures file.Valid() && Follows(old(file.Past()), file.Past()) && ReadsBut0(old(file.disk), file.disk)
    ensures old(Recover(file.disk.cache)).Err? ==>
              && r.Err? && (r.error == Io || r.error == old(Recover(file.disk.cache)).error)
              && file.Past() == old(file.Past())
    ensures old(Recover(file.disk.cache)).Ok? && r.Err? ==> r.error == Io
    ensures if file.faults == old(file.faults) then
              r.Ok? == old(Recover(file.disk.cache)).Ok? && (r.Err? ==> r.error == old(Recover(file.disk.cache)).error)
            else r == Err(Io)
    ensures r.Err? ==> Still(old(file.Past()), file.Past())
    ensures r.Ok? ==> Still(old(file.Past()), Before(file.Past()))
    ensures r.Ok? ==> fresh(r.value) && r.value.file == file && r.value.Valid() && r.value.Usable() && !r.value.dirty
    ensures r.Ok? ==> r.value.View() == Reopened(old(Recover(file.disk.cache)).value)
    ensures r.Ok? ==> MetaWritten(r.value.durable, file.disk)
    ensures r.Ok? ==> file.Now().current == old(file.Now().current) || file.Now().current == old(file.Now().coming)
    ensures r.Ok? ==> Back(r.value.View(), file.Now(), file.Now().current)
    ensures r.Ok? && Whole(file.Now().current) ==> Agreed(r.value.View(), file.Now())
  {
    hide Inv, Recover, RecoverFrom, DecodeMeta, Linked, Accounted, Agreed, IsRun, LiveAgrees, Reopened, Whole, Still,
      ReadsBut0, Before, Lingers, Back, MetaWritten;
    ghost var s := file.Now();
    StillSame(file.Past());
    ReadsBut0Same(file.disk);
    RunIsSafe(file.run, |file.run| - 1);
    var found := Inspect(file);
    if found.Err? {
      return Err(found.error);
    }
    var rec := found.value;
    ghost var m := RecoverIs(file.disk.cache);
    ghost var g := FoundGeneration(s, m, rec);
    ReopenedAgrees(s, g);
    var l := Reopened(rec);
    var onDisk := file.PageCount();
    if onDisk.Err? {
      return Err(onDisk.error);
    }
    ReopenedKnows(rec, s, g);
    var agrees := VerifyLive(l, onDisk.value, rec.entries, rec.lists);
    assert agrees;
    var ok := SettleMeta(file, rec.meta, g);
    if !ok {
      return Err(Io);
    }
    RunIsSafe(file.run, |file.run| - 1);
    ReopenedIsReady(file.Now(), g);
    SettledIsBack(l, file.Now(), g);
    var store := new Store(file, l);
    r := Ok(store);
  }

  lemma ReopenedKnows(r: Recovered, s: State, g: Gen)
    requires Inv(s) && (g == s.current || g == s.coming) && g.Snap?
    requires g == Snap(r.meta, r.entries, r.lists, g.pages)
    ensures Reopened(r).durable.nextPage != 0 && Reopened(r).durable == r.meta
  {
    hide DecodeMeta, Chain;
  }

  // Lays out a new store on a blank file: zeros for the first chunk of pages, then a first checkpoint. There is nothing
  // to list yet, so only I/O can fail; and until it is done, a crash leaves a blank file or the new store.
  method Create(file: File) returns (r: Result<Store>)
    requires file.Valid() && IsBlank(file.disk.cache)
    modifies file
    ensures file.Valid() && Follows(old(file.Past()), file.Past()) && old(file.Now()).current.Blank?
    ensures r.Ok? ==> fresh(r.value) && r.value.file == file && r.value.Valid() && r.value.Usable() && !r.value.dirty
    ensures r.Ok? ==> var l := r.value.View();
                      && l.root == NO_PAGE && l.durable.checkpoint == 1 && l.nextPage == 1 && l.filePages == 16
                      && (forall id :: !Owned(l, id)) && l.durable == Meta(1, 4096, 0, 0, 0, 1, 16, 1)
    ensures r.Ok? ==> MetaWritten(r.value.durable, file.disk)
    ensures r.Ok? ==> Agreed(r.value.View(), file.Now()) && Back(r.value.View(), file.Now(), file.Now().current)
    ensures r.Err? ==> r.error == Io || r.error == Poisoned(Io)
    ensures r.Ok? <==> file.faults == old(file.faults)
    ensures r.Err? ==> Through(old(file.Past()), file.Past(), NewStore())
    ensures r.Ok? ==> Through(old(file.Past()), Before(file.Past()), NewStore())
  {
    hide Inv, IsRun, Linked, Agreed, Accounted, Spare, Checkpointed, Still, Through, Before, Unfailed, ReadsSame,
      Undisturbed, InFlight, Lingers, RunsOut, Back;
    RunIsSafe(file.run, |file.run| - 1);
    BlankIsSpare(file.Now());
    ghost var s, h := file.Now(), file.Past();
    var ok := file.Grow(0, CHUNK_PAGES);
    ghost var h1 := file.Past();
    StillEnds(h, h1);
    StillIsThrough(h, h1, NewStore());
    if !ok {
      return Err(Io);
    }
    ZeroBetweenReaches(file.disk, 0, CHUNK_PAGES);
    var store := new Store(file, NewStore());
    ghost var s1 := file.Now();
    GrownIsStarting(s, s1);
    NewStoreHasRoom();
    var err := store.Checkpoint();
    ThroughForNew(h, h1, file.Past());
    if err.Some? {
      return Err(err.value);
    }
    ThroughForNew(h, h1, Before(file.Past()));
    RunIsSafe(file.run, |file.run| - 1);
    FirstCheckpoint(s1, store.View(), file.Now());
    r := Ok(store);
  }

  lemma StillIsThrough(h0: History, h: History, l: Live)
    requires Still(h0, h)
    ensures Through(h0, h, l) && Follows(h0, h)
  {
    hide InFlight;
    forall i | |h0.run| <= i < |h.run|
      ensures Keeps(l, Last(h0), h.run[i])
    {
      assert SameGens(Last(h0), h.run[i]);
    }
  }

  // A store that owns nothing yet promises nothing about bytes, so it does not matter when it started.
  lemma ThroughForNew(h0: History, h1: History, h2: History)
    requires Still(h0, h1)
    ensures Through(h1, h2, NewStore()) ==> Through(h0, h2, NewStore())
    ensures Follows(h1, h2) ==> Follows(h0, h2)
  {
    hide Whole;
    StillEnds(h0, h1);
    assert forall id :: !Owned(NewStore(), id);
    if Through(h1, h2, NewStore()) {
      forall i | |h0.run| <= i < |h2.run|
        ensures Keeps(NewStore(), Last(h0), h2.run[i])
      {
        if i < |h1.run| {
          assert h2.run[i] == h1.run[i];
        } else {
          assert Keeps(NewStore(), Last(h1), h2.run[i]);
          assert InFlight(NewStore(), Last(h1).disk, h2.run[i].coming) ==>
              InFlight(NewStore(), Last(h0).disk, h2.run[i].coming);
        }
      }
    }
  }

  lemma GrownIsStarting(s: State, t: State)
    requires s.current.Blank? && t.current == s.current && t.coming == s.coming && Inv(s)
    requires ZeroBetween(t.disk, 0, CHUNK_PAGES) && CHUNK_PAGES <= |t.disk.cache| && CHUNK_PAGES <= |t.disk.Settled()|
    ensures Starting(NewStore(), t) && Accounted(NewStore())
  {
    var meta: PageId := META_PAGE;
    assert PageAt(t.disk.cache, meta) == ZeroPage();
  }

  lemma FirstCheckpoint(s: State, l': Live, s': State)
    requires Checkpointed(NewStore(), s, l', s') && Inv(s') && Carried(NewStore(), l')
    ensures l'.root == NO_PAGE && l'.durable.checkpoint == 1 && l'.nextPage == 1 && l'.filePages == 16
    ensures forall id :: !Owned(l', id)
    ensures Agreed(l', s') && Back(l', s', s'.current) && MetaWritten(l'.durable, s'.disk)
    ensures l'.durable == Meta(1, 4096, 0, 0, 0, 1, 16, 1)
  {
    hide Inv, Reopened, Back, GenOk, Carried, Agreed, MetaWritten, Checkpointed;
    FirstIsEmpty(s, l', s');
    SettledIsBack(l', s', s'.current);
    SettledIsOk(s');
    NewStoreNeedsNoList(l');
    NewMeta(s'.current, l');
  }

  lemma FirstIsEmpty(s: State, l': Live, s': State)
    requires Checkpointed(NewStore(), s, l', s')
    ensures l'.root == NO_PAGE && l'.durable.checkpoint == 1 && Agreed(l', s') && MetaWritten(l'.durable, s'.disk)
    ensures forall id :: !Owned(l', id)
    ensures s'.current.Snap? && s'.coming == s'.current && s'.disk.log == []
    ensures l' == Reopened(Recovered(s'.current.meta, s'.current.entries, s'.current.lists))
  {
    hide Inv, Reopened, VouchesFor, EncodeMeta, GenOk, ListWritten, ListPage;
    assert forall id :: !Owned(NewStore(), id);
  }

  lemma SettledIsOk(s: State)
    requires Inv(s) && s.coming == s.current && s.current.Snap?
    ensures GenOk(s.current) && s.current.meta.version == VERSION && s.current.meta.pageSize == SIZE
  {
    hide DecodeMeta, Chain, Recover, RecoverFrom;
    HeldYields(s);
    var m := RecoverIs(s.disk.cache);
  }

  lemma NewMeta(g: Gen, l: Live)
    requires GenOk(g) && g.Snap? && l == Reopened(Recovered(g.meta, g.entries, g.lists))
    requires g.meta.version == VERSION && g.meta.pageSize == SIZE
    requires Carried(NewStore(), l) && l.root == NO_PAGE && l.durable.checkpoint == 1
    ensures l.durable == Meta(1, 4096, 0, 0, 0, 1, 16, 1)
  {
    NewStoreNeedsNoList(l);
    ReopenedParts(g.meta, g.entries, g.lists);
  }

  lemma ReopenedParts(m: Meta, entries: seq<PageId>, lists: seq<PageId>)
    ensures var l := Reopened(Recovered(m, entries, lists));
            && l.durable == m && l.root == m.root && l.nextPage == m.nextPage && l.filePages == m.filePages
            && l.free == entries && l.listPage == lists
  {
  }

  lemma NewStoreNeedsNoList(l: Live)
    requires Carried(NewStore(), l)
    ensures l.nextPage == 1 && l.filePages == 16 && l.listPage == [] && l.free == []
  {
    assert |l.listPage| > 0 ==> TooFew(NewStore(), 0);
  }

  lemma NewStoreHasRoom()
    ensures !RunsOut(NewStore())
  {
  }

  lemma OpensUnlessForeign(s: State)
    requires Inv(s) && !s.current.Foreign?
    ensures IsBlank(s.disk.cache) || Recover(s.disk.cache).Ok?
  {
    hide Recover, DecodeMeta, Chain;
    HeldYields(s);
  }

  // Opens whatever is there: a blank file is one whose creation was cut short.
  method OpenFile(file: File) returns (r: Result<Store>)
    requires file.Valid()
    modifies file
    ensures file.Valid() && Follows(old(file.Past()), file.Past())
    ensures r.Ok? ==> fresh(r.value) && r.value.file == file && r.value.Valid() && r.value.Usable() && !r.value.dirty
    ensures r.Ok? ==> Back(r.value.View(), file.Now(), file.Now().current)
    ensures r.Ok? && Whole(file.Now().current) ==> Agreed(r.value.View(), file.Now())
    ensures old(IsBlank(file.disk.cache)) && r.Ok? ==>
              var l := r.value.View();
              && l.root == NO_PAGE && l.durable.checkpoint == 1 && l.nextPage == 1 && l.filePages == 16
              && (forall id :: !Owned(l, id)) && l.durable == Meta(1, 4096, 0, 0, 0, 1, 16, 1)
    ensures r.Ok? ==> MetaWritten(r.value.durable, file.disk)
    ensures !old(IsBlank(file.disk.cache)) && old(Recover(file.disk.cache)).Err? ==>
              && r.Err? && (r.error == Io || r.error == old(Recover(file.disk.cache)).error)
              && file.Past() == old(file.Past())
    ensures !old(IsBlank(file.disk.cache)) && old(Recover(file.disk.cache)).Ok? && r.Err? ==> r.error == Io
    ensures !old(IsBlank(file.disk.cache)) && r.Ok? ==> r.value.View() == Reopened(old(Recover(file.disk.cache)).value)
    ensures !old(IsBlank(file.disk.cache)) && r.Ok? ==>
              file.Now().current == old(file.Now().current) || file.Now().current == old(file.Now().coming)
    ensures !old(IsBlank(file.disk.cache)) ==>
              && ReadsBut0(old(file.disk), file.disk)
              && Still(old(file.Past()), if r.Ok? then Before(file.Past()) else file.Past())
    ensures old(IsBlank(file.disk.cache)) ==>
              Through(old(file.Past()), if r.Ok? then Before(file.Past()) else file.Past(), NewStore())
    ensures !old(file.Now().current).Foreign? && r.Err? ==> r.error == Io || r.error == Poisoned(Io)
    ensures file.faults == old(file.faults) ==>
              && (r.Ok? <==> old(IsBlank(file.disk.cache)) || old(Recover(file.disk.cache)).Ok?)
              && (r.Err? ==> r.error == old(Recover(file.disk.cache)).error)
    ensures file.faults != old(file.faults) ==> r == Err(Io) || r == Err(Poisoned(Io))
  {
    hide Recover, Inv, IsRun, Linked, Agreed, Accounted, Reopened, Still, Through, ReadsBut0, Before, Lingers, Back,
      Owned, Whole;
    RunIsSafe(file.run, |file.run| - 1);
    StillSame(file.Past());
    ReadsBut0Same(file.disk);
    StillIsThrough(file.Past(), file.Past(), NewStore());
    if !file.Now().current.Foreign? {
      OpensUnlessForeign(file.Now());
    }
    var blank := IsBlankFile(file);
    if blank.Err? {
      return Err(blank.error);
    }
    if blank.value {
      r := Create(file);
    } else {
      r := Load(file);
    }
  }
}
