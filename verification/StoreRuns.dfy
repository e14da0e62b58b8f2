// Any caller, any failures, any crashes: a file and the stores opened on it one after the other behave as the oracle
// says. Each event is one call, or the end of one process and the start of the next.
module StoreRuns {
  import opened Bytes
  import opened Outcomes
  import opened PageLayout
  import opened SimulatedDisk
  import opened StoreFormat
  import opened Recovery
  import opened CommitProtocol
  import opened CrashSafety
  import opened PageFile
  import opened LiveState
  import opened StoreWrites
  import opened Checkpointing
  import opened Opening
  import opened PageStore
  import O = StoreOracle

  // ---------- the oracle, the books and the disk ----------

  ghost function OwnedPages(l: Live): (ids: set<PageId>)
    ensures forall id :: id in ids <==> Owned(l, id)
  {
    set id | id in HandedOut(l.nextPage) && Owned(l, id)
  }

  ghost function BooksOf(g: Gen): Live
    requires g.Snap?
  {
    Reopened(Recovered(g.meta, g.entries, g.lists))
  }

  // What the oracle says of the store in use. Certain bytes are on their way to the platter, or there.
  ghost predicate Mirrors(sn: O.Snapshot, l: Live, d: Disk) {
    && sn.root == l.root && sn.owned == OwnedPages(l) && sn.pages.Keys <= sn.owned
    && forall id :: id in sn.pages ==>
         PageAt(d.cache, id) == sn.pages[id] && PageAt(d.Settled(), id) == sn.pages[id]
  }

  // What it says of a checkpoint. A file whose creation was cut short counts as an empty store.
  ghost predicate Holds(sn: O.Snapshot, g: Gen) {
    match g
    case Blank => sn == O.EMPTY
    case Foreign(_) => false
    case Snap(m, _, _, pages) =>
      && sn.root == m.root && sn.owned == OwnedPages(BooksOf(g)) && sn.pages.Keys <= sn.owned
      && forall id :: id in sn.pages ==> id in pages && pages[id] == sn.pages[id]
  }

  ghost predicate Kept(o: O.Oracle, s: State) {
    && Holds(o.durable, s.current)
    && (|| s.coming == s.current
        || Holds(o.durable, s.coming)
        || (o.next.Some? && Holds(o.next.value, s.coming)))
  }

  ghost predicate Refusing(b: Books, error: Error) {
    if b.poisoned.Some? then error == Poisoned(Io) && b.poisoned == Some(Io) else b.closed && error == Closed
  }

  ghost predicate Tied(o: O.Oracle, b: Books, s: State) {
    && Kept(o, s)
    && match o.status
       case Down => false
       case Running =>
         && b.poisoned.None? && !b.closed && o.next.None?
         && Mirrors(o.live, b.live, s.disk) && (!b.dirty ==> o.live == o.durable)
       case Stopped(error) => Refusing(b, error) && o.live.root == b.live.root
  }

  lemma MirrorsUndisturbed(sn: O.Snapshot, l: Live, d: Disk, d': Disk)
    requires Mirrors(sn, l, d) && Undisturbed(l, d, d')
    ensures Mirrors(sn, l, d')
  {
  }

  lemma HoldsLess(sn: O.Snapshot, g: Gen, id: PageId)
    requires Holds(sn, g)
    ensures Holds(sn.(pages := sn.pages - {id}), g) && Holds(sn.(pages := sn.pages - {id}), Forget(g, id))
  {
  }

  // What happens to the store in use does not change what has been kept.
  lemma KeptStays(o: O.Oracle, o': O.Oracle, s: State)
    requires Kept(o, s) && o'.durable == o.durable && o'.next == o.next
    ensures Kept(o', s)
  {
  }

  // ---------- calls that leave the disk alone ----------

  method DoSetRoot(store: Store, id: PageId, ghost o: O.Oracle) returns (out: O.Outcome, ghost o': O.Oracle)
    requires store.Valid() && Tied(o, store.All(), store.file.Now())
    modifies store`root, store`dirty
    ensures store.Valid() && Tied(o', store.All(), store.file.Now()) && O.Moves(o, O.SetRoot(id), out, o')
  {
    hide Kept, Accounted, Linked, Lingers, OwnedPages;
    ghost var l := store.View();
    var err := store.SetRoot(id);
    out := O.Did(err);
    o' := if o.status.Running? && err.None? then o.(live := o.live.(root := id)) else o;
    KeptStays(o, o', store.file.Now());
    RootOwns(l, id);
  }

  lemma RootOwns(l: Live, root: PageId)
    ensures OwnedPages(l.(root := root)) == OwnedPages(l)
  {
  }

  method DoRead(store: Store, id: PageId, ghost o: O.Oracle) returns (out: O.Outcome)
    requires store.Valid() && Tied(o, store.All(), store.file.Now())
    modifies store.file`faults
    ensures store.Valid() && Tied(o, store.All(), store.file.Now()) && O.Moves(o, O.Read(id), out, o)
  {
    hide Kept, Accounted, Linked, Lingers;
    var r := store.Read(id);
    out := O.Gave(r);
  }

  method DoFree(store: Store, id: PageId, ghost o: O.Oracle) returns (out: O.Outcome, ghost o': O.Oracle)
    requires store.Valid() && Tied(o, store.All(), store.file.Now())
    modifies store`pending, store`status, store`dirty
    ensures store.Valid() && Tied(o', store.All(), store.file.Now()) && O.Moves(o, O.Free(id), out, o')
  {
    hide Kept, Accounted, Linked, Lingers, Apply, PageAt, OwnedPages;
    ghost var l := store.View();
    var err := store.Free(id);
    out := O.Did(err);
    o' := o;
    if o.status.Running? && err.None? {
      o' := O.GaveBack(o, id);
      KeptStays(o, o', store.file.Now());
      ReleaseOwns(l, id);
    }
  }

  lemma ReleaseOwns(l: Live, id: PageId)
    requires Owned(l, id)
    ensures OwnedPages(Release(l, id)) == OwnedPages(l) - {id}
  {
  }

  method DoVerify(store: Store, ghost o: O.Oracle) returns (out: O.Outcome)
    requires store.Valid() && Tied(o, store.All(), store.file.Now())
    modifies store.file`faults
    ensures store.Valid() && Tied(o, store.All(), store.file.Now()) && O.Moves(o, O.Verify, out, o)
  {
    hide Kept, Accounted, Linked, Lingers;
    var err := store.Verify();
    out := O.Did(err);
  }

  method DoDiscard(store: Store, ghost o: O.Oracle) returns (out: O.Outcome, ghost o': O.Oracle)
    requires store.Valid() && Tied(o, store.All(), store.file.Now())
    modifies store`closed, store.file`faults
    ensures store.Valid() && Tied(o', store.All(), store.file.Now()) && O.Moves(o, O.Discard, out, o')
  {
    hide Kept, Accounted, Linked, Lingers;
    var err := store.Discard();
    out := O.Did(err);
    o' := if o.status.Running? then o.(status := O.Stopped(Closed)) else o;
    KeptStays(o, o', store.file.Now());
  }

  // ---------- calls that write ----------

  method DoWrite(store: Store, p: Page, ghost o: O.Oracle) returns (out: O.Outcome, ghost o': O.Oracle)
    requires store.Valid() && Tied(o, store.All(), store.file.Now())
    modifies store.file, store`dirty
    ensures store.Valid() && Tied(o', store.All(), store.file.Now()) && O.Moves(o, O.Write(p), out, o')
  {
    hide Kept, Accounted, Linked, Lingers, Mirrors, Softly, UndisturbedBut, SimulatedDisk.Write, IsRun, WroteInPart;
    ghost var l, s, b := store.View(), store.file.Now(), store.All();
    var err := store.Write(p);
    out := O.Did(err);
    o' := o;
    if o.status.Running? {
      MirrorsOwned(o.live, l, s.disk, Id(p));
      if Owned(l, Id(p)) {
        o' := O.Wrote(o, Id(p), if err.None? then Some(p) else None);
        ReadyIsOne(l, s);
        ReadyIsOne(l, store.file.Now());
        ForgetKeeps(o, s, store.file.Now(), Id(p), if err.None? then Some(p) else None);
        if err.None? {
          MirrorsWrite(o.live, l, s.disk, p);
        } else {
          MirrorsBut(o.live, l, s.disk, store.file.disk, Id(p));
        }
      }
    }
  }

  lemma MirrorsOwned(sn: O.Snapshot, l: Live, d: Disk, id: PageId)
    requires Mirrors(sn, l, d)
    ensures id in sn.owned <==> Owned(l, id)
    ensures sn.root == l.root
  {
  }

  lemma ReadyIsOne(l: Live, s: State)
    requires Ready(l, s)
    ensures s.coming == s.current && s.current.Snap?
  {
  }

  lemma ForgetKeeps(o: O.Oracle, s: State, s': State, id: PageId, p: Option<Page>)
    requires Kept(o, s) && s'.coming == s'.current
    requires s'.current == s.current || s'.current == Forget(s.current, id)
    ensures Kept(O.Wrote(o, id, p), s')
  {
    HoldsLess(o.durable, s.current, id);
  }

  lemma MirrorsWrite(sn: O.Snapshot, l: Live, d: Disk, p: Page)
    requires Mirrors(sn, l, d) && Owned(l, Id(p))
    ensures Mirrors(sn.(pages := sn.pages[Id(p) := p]), l, SimulatedDisk.Write(d, PageWrite(Id(p), p)))
  {
    WriteSettles(d, PageWrite(Id(p), p));
  }

  lemma MirrorsBut(sn: O.Snapshot, l: Live, d: Disk, d': Disk, id: PageId)
    requires Mirrors(sn, l, d) && UndisturbedBut(l, d, d', id)
    ensures Mirrors(sn.(pages := sn.pages - {id}), l, d')
  {
  }

  lemma StillKept(o: O.Oracle, h: History, h': History)
    requires Still(h, h') && h'.run != [] && Kept(o, Last(h))
    ensures Kept(o, Last(h'))
  {
    StillEnds(h, h');
  }

  method DoAllocate(store: Store, kind: byte, ghost o: O.Oracle) returns (out: O.Outcome, ghost o': O.Oracle)
    requires store.Valid() && Tied(o, store.All(), store.file.Now())
    modifies store, store.file
    ensures store.Valid() && Tied(o', store.All(), store.file.Now()) && O.Moves(o, O.Allocate(kind), out, o')
  {
    hide Kept, Accounted, Linked, Lingers, Mirrors, Still, Unfailed, Undisturbed, IsRun, Holds, NewPage, Id;
    ghost var l, s, h, b := store.View(), store.file.Now(), store.file.Past(), store.All();
    var r := store.Allocate(kind);
    out := O.Gave(r);
    o' := o;
    StillKept(o, h, store.file.Past());
    if o.status.Running? {
      MirrorsUndisturbed(o.live, l, s.disk, store.file.disk);
      if r.Ok? {
        o' := O.Took(o, r.value);
        AllocatedIsNew(b, s, r.value, kind, store.All(), o);
        MirrorsTook(o, l, store.View(), store.file.disk, r.value);
        KeptStays(o, o', store.file.Now());
      }
    }
  }

  // No page is handed out that is in use, now or in the checkpoint a crash brings back.
  lemma AllocatedIsNew(b: Books, s: State, p: Page, kind: byte, b': Books, o: O.Oracle)
    requires Ready(b.live, s) && AllocatedFrom(b, p, kind, b') && Kept(o, s)
    ensures Id(p) !in o.durable.owned && !Owned(b.live, Id(p))
    ensures b'.live.root == b.live.root && OwnedPages(b'.live) == OwnedPages(b.live) + {Id(p)}
  {
    hide NewPage, Id;
    var l := b.live;
    if l.free != [] {
      TakeFreeIsAccounted(l);
      var n := |l.free| - 1;
      assert s.current.entries[n] == l.free[n];
    } else {
      TakeFreshIsAccounted(l, b'.live.filePages);
    }
  }

  lemma MirrorsTook(o: O.Oracle, l: Live, l': Live, d: Disk, p: Page)
    requires Mirrors(o.live, l, d) && l'.root == l.root && OwnedPages(l') == OwnedPages(l) + {Id(p)}
    requires PageAt(d.cache, Id(p)) == p && PageAt(d.Settled(), Id(p)) == p
    ensures Mirrors(O.Took(o, p).live, l', d)
  {
    hide Id, PageAt, Owned, OwnedPages, Apply;
  }

  // ---------- calls that sync or commit ----------

  method DoSync(store: Store, ghost o: O.Oracle) returns (out: O.Outcome, ghost o': O.Oracle)
    requires store.Valid() && Tied(o, store.All(), store.file.Now())
    modifies store.file, store`poisoned
    ensures store.Valid() && Tied(o', store.All(), store.file.Now()) && O.Moves(o, O.Sync, out, o')
  {
    hide Kept, Accounted, Linked, Lingers, Mirrors, Still, Unfailed, IsRun;
    ghost var l, s, h := store.View(), store.file.Now(), store.file.Past();
    var err := store.Sync();
    out := O.Did(err);
    StillKept(o, h, store.file.Past());
    o' := if o.status.Running? && err.Some? then o.(status := O.Stopped(Poisoned(Io))) else o;
    KeptStays(o, o', store.file.Now());
    if o.status.Running? {
      MirrorsOwned(o.live, l, s.disk, NO_PAGE);
      if err.None? {
        SyncUndisturbs(l, s.disk);
        MirrorsUndisturbed(o.live, l, s.disk, store.file.disk);
      }
    }
  }

  lemma InFlightHolds(sn: O.Snapshot, l: Live, d: Disk, to: Gen)
    requires Mirrors(sn, l, d) && InFlight(l, d, to) && VouchesFor(l, d, to)
    ensures Holds(sn, to)
  {
    hide Owned, Referenced, Reopened;
    assert OwnedPages(BooksOf(to)) == OwnedPages(l);
  }

  lemma CommittedIsLive(sn: O.Snapshot, l: Live, s: State, l': Live, s': State)
    requires Mirrors(sn, l, s.disk) && Checkpointed(l, s, l', s') && InFlight(l, s.disk, s'.current) && Inv(s')
    ensures Holds(sn, s'.current) && Mirrors(sn, l', s'.disk) && s'.coming == s'.current
  {
    hide Owned, Referenced, Reopened, VouchesFor, Inv;
    InFlightHolds(sn, l, s.disk, s'.current);
    SettledIsBack(l', s', s'.current);
    assert OwnedPages(l') == OwnedPages(l);
  }

  lemma ThroughKept(o: O.Oracle, h: History, h': History, l: Live)
    requires Through(h, h', l) && h'.run != [] && Mirrors(o.live, l, Last(h).disk)
    requires Kept(o, Last(h)) && Last(h).coming == Last(h).current
    ensures Kept(o.(next := Some(o.live)), Last(h'))
  {
    hide Mirrors, InFlight, VouchesFor, Holds;
    if |h'.run| > |h.run| {
      assert Keeps(l, Last(h), h'.run[|h'.run| - 1]);
      var t := Last(h');
      if InFlight(l, Last(h).disk, t.coming) && VouchesFor(l, Last(h).disk, t.coming) {
        InFlightHolds(o.live, l, Last(h).disk, t.coming);
      }
    } else {
      assert h'.run == h.run;
    }
  }

  method DoCheckpoint(store: Store, ghost o: O.Oracle) returns (out: O.Outcome, ghost o': O.Oracle)
    requires store.Valid() && Tied(o, store.All(), store.file.Now())
    modifies store, store.file
    ensures store.Valid() && Tied(o', store.All(), store.file.Now()) && O.Moves(o, O.Checkpoint, out, o')
  {
    hide Kept, Accounted, Linked, Lingers, Mirrors, Still, Unfailed, IsRun, Through, Checkpointed, InFlight, ReadsSame,
      Undisturbed, Follows, Before, Inv, Holds;
    ghost var l, s, h := store.View(), store.file.Now(), store.file.Past();
    var err := store.Checkpoint();
    out := O.Did(err);
    o' := o;
    if o.status.Running? {
      ReadyIsOne(l, s);
      MirrorsOwned(o.live, l, s.disk, NO_PAGE);
      if err.None? {
        o' := o.(durable := o.live);
        RunIsSafe(store.file.run, |store.file.run| - 1);
        CommittedIsLive(o.live, l, s, store.View(), store.file.Now());
        HeldIsKept(o', store.file.Now());
      } else if store.Usable() {
        StillKept(o, h, store.file.Past());
        MirrorsUndisturbed(o.live, l, s.disk, store.file.disk);
      } else {
        o' := o.(status := O.Stopped(Poisoned(Io)), next := Some(o.live));
        ThroughKept(o, h, store.file.Past(), l);
        KeptStays(o.(next := Some(o.live)), o', store.file.Now());
      }
    }
  }

  lemma HeldIsKept(o: O.Oracle, s: State)
    requires Holds(o.durable, s.current) && s.coming == s.current
    ensures Kept(o, s)
  {
  }

  method DoClose(store: Store, ghost o: O.Oracle) returns (out: O.Outcome, ghost o': O.Oracle)
    requires store.Valid() && Tied(o, store.All(), store.file.Now())
    modifies store, store.file
    ensures store.Valid() && Tied(o', store.All(), store.file.Now()) && O.Moves(o, O.Close, out, o')
  {
    hide Kept, Accounted, Linked, Lingers, Mirrors, Still, Unfailed, IsRun, Through, Checkpointed, InFlight, ReadsSame,
      Undisturbed, Follows, Before, Inv, Holds;
    ghost var l, s, h, dirty := store.View(), store.file.Now(), store.file.Past(), store.dirty;
    var err := store.Close();
    out := O.Did(err);
    o' := o;
    if o.status.Running? {
      ReadyIsOne(l, s);
      MirrorsOwned(o.live, l, s.disk, NO_PAGE);
      if store.poisoned.Some? {
        o' := o.(status := O.Stopped(Poisoned(Io)), next := Some(o.live));
        ThroughKept(o, h, store.file.Past(), l);
        KeptStays(o.(next := Some(o.live)), o', store.file.Now());
      } else if store.dirty {
        o' := o.(status := O.Stopped(Closed));
        StillKept(o, h, store.file.Past());
        KeptStays(o, o', store.file.Now());
      } else {
        o' := o.(status := O.Stopped(Closed), durable := o.live);
        if dirty {
          RunIsSafe(store.file.run, |store.file.run| - 1);
          CommittedIsLive(o.live, l, s, store.View(), store.file.Now());
          MirrorsOwned(o.live, store.View(), store.file.disk, NO_PAGE);
          HeldIsKept(o', store.file.Now());
        } else {
          KeptStays(o, o', store.file.Now());
        }
      }
    }
  }

  // ---------- crashes ----------

  function Fit(keep: seq<bool>, n: nat): (k: seq<bool>)
    ensures |k| == n
  {
    seq(n, i requires 0 <= i < n => i < |keep| && keep[i])
  }

  // The process ends; the page cache goes with it only in a power cut.
  method EndProcess(file: File, crash: O.Crash, ghost o: O.Oracle)
    requires file.Valid() && Kept(o, file.Now())
    modifies file
    ensures file.Valid() && Kept(o, file.Now())
  {
    match crash {
      case Restart(gone) => file.RestartEvicting(gone);
      case PowerCut(keep) => file.PowerLoss(Fit(keep, |file.disk.log|));
    }
  }

  method Reopen(file: File, crash: O.Crash, ghost o: O.Oracle)
      returns (store: Store?, out: O.Outcome, ghost o': O.Oracle)
    requires file.Valid() && Kept(o, file.Now())
    modifies file
    ensures file.Valid() && Kept(o', file.Now()) && O.Moves(o, O.Reopen(crash), out, o')
    ensures store == null ==> o'.status == O.Down
    ensures store != null ==> fresh(store) && store.file == file && store.Valid() && Tied(o', store.All(), file.Now())
  {
    hide Kept, Accounted, Linked, Lingers, Mirrors, Still, IsRun, Through, Follows, Before, Inv, Holds, Recover,
      IsBlank, Reopened, Back, ReadsBut0, Agreed, Whole;
    EndProcess(file, crash, o);
    ghost var s, h := file.Now(), file.Past();
    RunIsSafe(file.run, |file.run| - 1);
    KeptIsOurs(o, s);
    var r := OpenFile(file);
    ghost var t := file.Now();
    if r.Err? {
      o' := o.(status := O.Down);
      store, out := null, O.Failed(r.error);
      if IsBlank(s.disk.cache) {
        BlankIsSpare(s);
        CreationKept(o, h, file.Past());
      } else {
        StillKept(o, h, file.Past());
      }
      KeptStays(o, o', t);
      return;
    }
    store, out := r.value, O.DONE;
    RunIsSafe(file.run, |file.run| - 1);
    if IsBlank(s.disk.cache) {
      BlankIsSpare(s);
      o' := O.Oracle(O.Running, o.durable, o.durable, None);
      CreatedHolds(o, s, store.View(), t);
    } else {
      ghost var sn := OneOfTwo(o, s, t.current);
      o' := O.Oracle(O.Running, sn, sn, None);
      BackMirrors(sn, store.View(), t);
    }
    HeldIsKept(o', t);
  }

  lemma KeptIsOurs(o: O.Oracle, s: State)
    requires Kept(o, s)
    ensures !s.current.Foreign?
  {
  }

  lemma CreationKept(o: O.Oracle, h: History, h': History)
    requires Through(h, h', NewStore()) && h'.run != [] && Kept(o, Last(h)) && Last(h).current.Blank?
    ensures Kept(o, Last(h'))
  {
    hide VouchesFor;
    if |h'.run| > |h.run| {
      assert Keeps(NewStore(), Last(h), h'.run[|h'.run| - 1]);
      var to := Last(h').coming;
      if InFlight(NewStore(), Last(h).disk, to) {
        assert OwnedPages(BooksOf(to)) == {};
      }
    } else {
      assert h'.run == h.run;
    }
  }

  lemma CreatedHolds(o: O.Oracle, s: State, l: Live, t: State)
    requires Kept(o, s) && s.current.Blank? && Back(l, t, t.current)
    requires l.root == NO_PAGE && forall id :: !Owned(l, id)
    ensures Holds(o.durable, t.current) && Mirrors(o.durable, l, t.disk) && t.coming == t.current
  {
    hide Owned;
    assert OwnedPages(l) == {};
  }

  // The generation found is the one kept, or the one that failed to be committed.
  lemma OneOfTwo(o: O.Oracle, s: State, g: Gen) returns (sn: O.Snapshot)
    requires Kept(o, s) && (g == s.current || g == s.coming)
    ensures (sn == o.durable || o.next == Some(sn)) && Holds(sn, g)
  {
    sn := if Holds(o.durable, g) then o.durable else o.next.value;
  }

  lemma BackMirrors(sn: O.Snapshot, l: Live, t: State)
    requires Back(l, t, t.current) && Holds(sn, t.current)
    ensures Mirrors(sn, l, t.disk) && t.coming == t.current
  {
    hide Owned;
  }

  // ---------- runs ----------

  ghost function FirstOracle(img: Image): O.Oracle {
    var sn := match GenOf(img)
      case Snap(m, entries, lists, pages) =>
        var owned := OwnedPages(Reopened(Recovered(m, entries, lists)));
        O.Snapshot(m.root, owned, map id | id in owned && id in pages :: pages[id])
      case _ => O.EMPTY;
    O.Oracle(O.Down, sn, sn, None)
  }

  lemma FirstIsKept(img: Image, s: State)
    requires s.current == s.coming == GenOf(img) && (IsBlank(img) || Recover(img).Ok?)
    ensures Kept(FirstOracle(img), s) && O.Sound(FirstOracle(img)) && FirstOracle(img).status == O.Down
  {
    hide Recover;
  }

  method Serve(store: Store, e: O.Event, ghost o: O.Oracle) returns (out: O.Outcome, ghost o': O.Oracle)
    requires store.Valid() && Tied(o, store.All(), store.file.Now()) && !e.Reopen?
    modifies store, store.file
    ensures store.Valid() && Tied(o', store.All(), store.file.Now()) && O.Moves(o, e, out, o')
  {
    hide Kept, Mirrors, Accounted, Linked, Lingers, Ready, IsRun, O.Serves;
    o' := o;
    match e {
      case SetRoot(id) => out, o' := DoSetRoot(store, id, o);
      case Root => out := DoRoot(store, o);
      case Read(id) => out := DoRead(store, id, o);
      case Write(p) => out, o' := DoWrite(store, p, o);
      case Allocate(kind) => out, o' := DoAllocate(store, kind, o);
      case Free(id) => out, o' := DoFree(store, id, o);
      case Sync => out, o' := DoSync(store, o);
      case Checkpoint => out, o' := DoCheckpoint(store, o);
      case Verify => out := DoVerify(store, o);
      case Close => out, o' := DoClose(store, o);
      case Discard => out, o' := DoDiscard(store, o);
    }
  }

  method DoRoot(store: Store, ghost o: O.Oracle) returns (out: O.Outcome)
    requires store.Valid() && Tied(o, store.All(), store.file.Now())
    ensures O.Moves(o, O.Root, out, o)
  {
    hide Kept, Accounted, Linked, Lingers;
    out := O.RootIs(store.root);
  }

  // Any events in any order on a file that is blank or holds a store, with any failures on the way: there is a run of
  // the oracle with exactly these outcomes.
  method Run(img: Image, es: seq<O.Event>) returns (outs: seq<O.Outcome>, ghost os: seq<O.Oracle>)
    requires IsBlank(img) || Recover(img).Ok?
    ensures O.Behaves(os, es, outs) && os[0] == FirstOracle(img) && O.Sound(os[0])
  {
    hide Kept, Mirrors, Tied, Accounted, Linked, Lingers, Ready, IsRun, O.Moves, FirstOracle, Recover, IsBlank, GenOf,
      O.Sound;
    var file := new File(img);
    var store: Store? := null;
    ghost var o := FirstOracle(img);
    FirstIsKept(img, file.Now());
    outs, os := [], [o];
    for i := 0 to |es|
      invariant |outs| == i && |os| == i + 1 && os[0] == FirstOracle(img) && os[i] == o
      invariant forall k :: 0 <= k < i ==> O.Moves(os[k], es[k], outs[k], os[k + 1])
      invariant fresh(file) && file.Valid() && Kept(o, file.Now())
      invariant store == null ==> o.status == O.Down
      invariant store != null ==>
                  fresh(store) && store.file == file && store.Valid() && Tied(o, store.All(), file.Now())
    {
      var out;
      ghost var o1;
      if es[i].Reopen? {
        store, out, o1 := Reopen(file, es[i].crash, o);
      } else if store == null {
        out, o1 := O.NoStore, o;
        NothingMoves(o, es[i]);
      } else {
        out, o1 := Serve(store, es[i], o);
        TiedIsKept(o1, store.All(), file.Now());
      }
      outs, os, o := outs + [out], os + [o1], o1;
    }
  }

  lemma NothingMoves(o: O.Oracle, e: O.Event)
    requires o.status == O.Down && !e.Reopen?
    ensures O.Moves(o, e, O.NoStore, o)
  {
  }

  lemma TiedIsKept(o: O.Oracle, b: Books, s: State)
    requires Tied(o, b, s)
    ensures Kept(o, s)
  {
  }
}
