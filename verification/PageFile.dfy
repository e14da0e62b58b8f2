// The file under a store: page reads and writes, fsync, and the faults of SimulatedDisk. Any call may fail. A write
// that fails may still have reached part of its page, except that page 0 is written whole or not at all.
// The file remembers, as a ghost, the run of commit-protocol states it has been through, one per page write, fsync
// and crash, and the outcomes of those writes and fsyncs.
module PageFile {
  import opened Bytes
  import opened Outcomes
  import opened PageLayout
  import opened SimulatedDisk
  import opened StoreFormat
  import opened Recovery
  import opened CommitProtocol
  import opened CrashSafety

  // Part of a page is as harmless as the whole of it.
  lemma TornMayBeWritten(s: State, w: PageWrite, k: nat)
    requires Inv(s) && MayWrite(s, w) && k <= SIZE && (w.id == META_PAGE ==> k == SIZE)
    ensures MayWrite(s, PageWrite(w.id, Torn(PageAt(s.disk.cache, w.id), w.data, k)))
  {
    var before := PageAt(s.disk.cache, w.id);
    var data := Torn(before, w.data, k);
    if w.id == META_PAGE {
      assert data == w.data;
    } else if s.current.Blank? {
      assert data == ZeroPage();
    }
  }

  // A page neither generation vouches for, so that even zeros may land on it.
  ghost predicate Spare(s: State, id: PageId) {
    && !s.current.Foreign? && !s.coming.Foreign?
    && (s.current.Blank? || s.coming.Blank? ==> id < CHUNK_PAGES)
    && (s.current.Snap? ==> id !in s.current.pages && id !in s.current.lists)
    && (s.coming.Snap? ==> id !in s.coming.pages && id !in s.coming.lists)
    && (id == META_PAGE ==> s.current.Blank?)
  }

  // What a write leaves on its page: the new bytes up to some point, and from there on those that were there.
  ghost predicate LandedInPart(before: Image, w: PageWrite, data: Page) {
    exists k: nat :: k <= SIZE && data == Torn(PageAt(before, w.id), w.data, k)
  }

  // A failed write: nothing at all, or part of the page.
  ghost predicate WroteInPart(d: Disk, w: PageWrite, d': Disk) {
    d' == d || exists data: Page :: LandedInPart(d.cache, w, data) && d' == Write(d, PageWrite(w.id, data))
  }

  lemma TornLands(before: Image, w: PageWrite, k: nat)
    requires k <= SIZE
    ensures LandedInPart(before, w, Torn(PageAt(before, w.id), w.data, k))
    ensures k == SIZE ==> Torn(PageAt(before, w.id), w.data, k) == w.data
  {
  }

  lemma SpareMayBeZeroed(s: State, id: PageId)
    requires Spare(s, id)
    ensures MayWrite(s, PageWrite(id, ZeroPage()))
    ensures Forget(s.current, id) == s.current && Forget(s.coming, id) == s.coming
  {
  }

  lemma WriteBelow(d: Disk, w: PageWrite)
    ensures var d' := Write(d, w);
            && SameBelow(d, d', w.id) && w.id < |d'.cache| && w.id < |d'.Settled()|
            && PageAt(d'.cache, w.id) == PageAt(d'.Settled(), w.id) == w.data
            && |d'.cache| == if w.id < |d.cache| then |d.cache| else w.id + 1
  {
    WriteSettles(d, w);
  }

  lemma SameBelowSame(d: Disk, id: PageId)
    ensures SameBelow(d, d, id)
  {
  }

  // ---------- what a file remembers ----------

  datatype Call = PageCall(id: PageId, ok: bool) | SyncCall(ok: bool)

  datatype History = History(run: seq<State>, calls: seq<Call>)

  // The failures after which it is open what the disk will hold.
  predicate Fatal(c: Call) {
    c == SyncCall(false) || c == PageCall(META_PAGE, false)
  }

  ghost function Last(h: History): State
    requires h.run != []
  {
    h.run[|h.run| - 1]
  }

  ghost predicate Follows(h0: History, h: History) {
    h0.run <= h.run && h0.calls <= h.calls
  }

  ghost predicate SameGens(s: State, t: State) {
    t.current == s.current && t.coming == s.coming
  }

  // At no moment since h0 would a crash have recovered anything else.
  ghost predicate Still(h0: History, h: History) {
    h0.run != [] && Follows(h0, h) && forall i :: |h0.run| <= i < |h.run| ==> SameGens(Last(h0), h.run[i])
  }

  ghost predicate Unfailed(h0: History, h: History) {
    forall k :: |h0.calls| <= k < |h.calls| ==> !Fatal(h.calls[k])
  }

  lemma StillSame(h: History)
    requires h.run != []
    ensures Still(h, h) && Unfailed(h, h) && Follows(h, h)
  {
  }

  lemma StillEnds(h0: History, h: History)
    requires Still(h0, h)
    ensures h.run != [] && SameGens(Last(h0), Last(h))
  {
  }

  lemma StillTwice(h0: History, h1: History, h2: History)
    requires Still(h0, h1) && Still(h1, h2)
    ensures Still(h0, h2)
  {
    StillEnds(h0, h1);
    forall i | |h0.run| <= i < |h2.run|
      ensures SameGens(Last(h0), h2.run[i])
    {
      if i < |h1.run| {
        assert h2.run[i] == h1.run[i];
      }
    }
  }

  lemma UnfailedTwice(h0: History, h1: History, h2: History)
    requires Follows(h0, h1) && Follows(h1, h2)
    ensures Unfailed(h0, h2) <==> Unfailed(h0, h1) && Unfailed(h1, h2)
    ensures Follows(h0, h2)
  {
    if Unfailed(h0, h2) {
      forall k | |h0.calls| <= k < |h1.calls|
        ensures !Fatal(h1.calls[k])
      {
        assert h2.calls[k] == h1.calls[k];
      }
    }
    if Unfailed(h0, h1) && Unfailed(h1, h2) {
      forall k | |h0.calls| <= k < |h2.calls|
        ensures !Fatal(h2.calls[k])
      {
        assert k < |h1.calls| ==> h2.calls[k] == h1.calls[k];
      }
    }
  }

  lemma SteadyTwice(h0: History, h1: History, h2: History)
    requires Still(h0, h1) && Unfailed(h0, h1) && Still(h1, h2) && Unfailed(h1, h2)
    ensures Still(h0, h2) && Unfailed(h0, h2)
  {
    StillTwice(h0, h1, h2);
    UnfailedTwice(h0, h1, h2);
  }

  lemma SpareAgain(s: State, t: State, id: PageId)
    requires Spare(s, id) && SameGens(s, t)
    ensures Spare(t, id)
  {
  }

  // One call more, with no change of generation.
  lemma OneCall(h0: History, h: History, c: Call)
    requires h0.run != [] && |h.run| == |h0.run| + 1 && h0.run <= h.run && h.calls == h0.calls + [c]
    ensures Follows(h0, h) && (Unfailed(h0, h) <==> !Fatal(c))
    ensures SameGens(Last(h0), Last(h)) ==> Still(h0, h)
  {
    assert h.calls[|h0.calls|] == c;
  }

  // All but the last moment.
  ghost function Before(h: History): History
    requires h.run != []
  {
    History(h.run[..|h.run| - 1], h.calls)
  }

  // Apart from page 0, reads show what they showed.
  ghost predicate ReadsBut0(d: Disk, d': Disk) {
    |d.cache| <= |d'.cache| && forall id: PageId :: id != META_PAGE ==> PageAt(d'.cache, id) == PageAt(d.cache, id)
  }

  lemma ReadsBut0Same(d: Disk)
    ensures ReadsBut0(d, d)
  {
  }

  lemma MetaReads(d: Disk, data: Page)
    ensures ReadsBut0(d, d) && ReadsBut0(d, Write(d, PageWrite(META_PAGE, data)))
  {
  }

  // An fsync, successful or not, does not change what reads show.
  lemma SyncReads(d: Disk, d1: Disk, d2: Disk)
    requires ReadsBut0(d, d1)
    ensures d2 == Synced(d1) ==> ReadsBut0(d, d2)
    ensures forall keep: seq<bool> :: |keep| == |d1.log| && d2 == SyncLost(d1, keep) ==> ReadsBut0(d, d2)
  {
  }

  class File {
    var disk: Disk
    ghost var run: seq<State>
    ghost var calls: seq<Call>

    // How many calls have failed so far, reads included.
    ghost var faults: nat

    ghost predicate Valid()
      reads this
    {
      |run| > 0 && IsRun(run) && Now().disk == disk
    }

    // The protocol state of this moment.
    ghost function Now(): State
      reads this
      requires |run| > 0
    {
      run[|run| - 1]
    }

    ghost function Past(): History
      reads this
    {
      History(run, calls)
    }

    // A file that was last closed in good order holds some image, any image.
    constructor (img: Image)
      ensures Valid() && disk == Disk(img, img, [])
      ensures run == [State(disk, GenOf(img), GenOf(img))] && calls == [] && faults == 0
    {
      calls := [];
      faults := 0;
      disk := Disk(img, img, []);
      run := [State(Disk(img, img, []), GenOf(img), GenOf(img))];
    }

    method PageCount() returns (r: Result<u32>)
      modifies this`faults
      ensures r.Ok? ==> r.value == Recovery.PageCount(disk.cache)
      ensures r.Err? ==> r.error == Io
      ensures faults == old(faults) + if r.Ok? then 0 else 1
    {
      var fails: bool := *;
      r := if fails then Err(Io) else Ok(Recovery.PageCount(disk.cache));
      Note(!fails);
    }

    method Read(id: PageId) returns (r: Result<Page>)
      modifies this`faults
      ensures r.Ok? ==> id < |disk.cache| && r.value == disk.cache[id]
      ensures r.Err? ==> r.error == Io
      ensures faults == old(faults) + if r.Ok? then 0 else 1
    {
      var fails: bool := *;
      r := if fails || id >= |disk.cache| then Err(Io) else Ok(disk.cache[id]);
      Note(r.Ok?);
    }

    method Close() returns (ok: bool)
      modifies this`faults
      ensures faults == old(faults) + if ok then 0 else 1
    {
      ok := *;
      Note(ok);
    }

    ghost method Note(ok: bool)
      modifies this`faults
      ensures faults == old(faults) + if ok then 0 else 1
    {
      if !ok {
        faults := faults + 1;
      }
    }

    // Writes one page. The caller shows that the write spares whatever a crash may recover, or, when it announces a
    // new generation, that the generation is already on the disk. written is what reached the cache.
    method WriteAt(w: PageWrite, ghost announce: Option<Gen>) returns (ok: bool, ghost written: Option<Page>)
      requires Valid()
      requires announce.None? ==> MayWrite(Now(), w)
      requires announce.Some? ==> w.id == META_PAGE && MayCommit(Now(), w.data, announce.value)
      modifies this
      ensures Valid() && |run| == |old(run)| + 1 && old(run) <= run
      ensures calls == old(calls) + [PageCall(w.id, ok)] && faults == old(faults) + if ok then 0 else 1
      ensures ok ==> written == Some(w.data)
      ensures written.Some? && w.id == META_PAGE ==> written == Some(w.data)
      ensures written.Some? ==> LandedInPart(old(disk).cache, w, written.value)
      ensures written.None? ==> Now() == old(Now())
      ensures written.Some? && announce.Some? ==>
                Now() == State(Write(old(disk), w), old(Now()).current, announce.value)
      ensures written.Some? && announce.None? ==>
                Now() == State(Write(old(disk), PageWrite(w.id, written.value)),
                               Forget(old(Now()).current, w.id), Forget(old(Now()).coming, w.id))
    {
      hide IsRun, MayWrite, MayCommit, Write, Torn, Inv, Forget, LandedInPart;
      ok := *;
      var landed: bool := *;
      if ok || landed {
        var k: nat := SIZE;
        if !ok && w.id != META_PAGE {
          k :| k <= SIZE;
        }
        var data := Torn(PageAt(disk.cache, w.id), w.data, k);
        TornLands(disk.cache, w, k);
        if announce.None? {
          RunIsSafe(run, |run| - 1);
          TornMayBeWritten(Now(), w, k);
        }
        written := Some(data);
        Land(PageWrite(w.id, data), announce);
      } else {
        written := None;
        Extend(Idle, Now());
      }
      calls := calls + [PageCall(w.id, ok)];
      Note(ok);
    }

    // The write reaches the cache and the list of writes the next fsync will flush.
    method Land(w: PageWrite, ghost announce: Option<Gen>)
      requires Valid()
      requires announce.None? ==> MayWrite(Now(), w)
      requires announce.Some? ==> w.id == META_PAGE && MayCommit(Now(), w.data, announce.value)
      modifies this`disk, this`run
      ensures Valid() && |run| == |old(run)| + 1 && old(run) <= run && calls == old(calls)
      ensures announce.Some? ==> Now() == State(Write(old(disk), w), old(Now()).current, announce.value)
      ensures announce.None? ==>
                Now() == State(Write(old(disk), w), Forget(old(Now()).current, w.id), Forget(old(Now()).coming, w.id))
    {
      hide IsRun, MayWrite, MayCommit, Write, Forget, Inv;
      ghost var s := Now();
      disk := Write(disk, w);
      if announce.Some? {
        Extend(BeginCommit(w.data, announce.value), State(disk, s.current, announce.value));
      } else {
        Extend(WritePage(w), State(disk, Forget(s.current, w.id), Forget(s.coming, w.id)));
      }
    }

    // Extends the file with zero pages, one page write at a time.
    method Grow(from: u32, to: u32) returns (ok: bool)
      requires Valid()
      requires forall id: PageId :: from <= id < to ==> Spare(Now(), id)
      modifies this
      ensures Valid() && Still(old(Past()), Past())
      ensures from > 0 ==> Unfailed(old(Past()), Past())
      ensures SameBelow(old(disk), disk, from)
      ensures ok ==> ZeroBetween(disk, from, to)
      ensures faults == old(faults) + if ok then 0 else 1
      ensures |disk.cache| <= if to > |old(disk).cache| then to else |old(disk).cache|
    {
      hide IsRun, Still, Unfailed, Follows, Spare, Inv, PageAt, Apply;
      ghost var h := Past();
      StillSame(h);
      ghost var d := disk;
      ghost var s := Now();
      var at := from;
      while at < to
        invariant from <= at && (at <= to || at == from)
        invariant Valid() && Still(h, Past()) && (from > 0 ==> Unfailed(h, Past()))
        invariant SameBelow(d, disk, from)
        invariant ZeroBetween(disk, from, at) && faults == old(faults)
        invariant |disk.cache| <= if to > |d.cache| then to else |d.cache|
      {
        ghost var h1 := Past();
        StillEnds(h, h1);
        SpareAgain(s, Now(), at);
        ok := WriteZeros(at);
        StillTwice(h, h1, Past());
        if from > 0 {
          SteadyTwice(h, h1, Past());
        }
        if !ok {
          return false;
        }
        at := at + 1;
      }
      ok := true;
    }

    method WriteZeros(id: PageId) returns (ok: bool)
      requires Valid() && Spare(Now(), id)
      modifies this
      ensures Valid() && Still(old(Past()), Past()) && (id > 0 ==> Unfailed(old(Past()), Past()))
      ensures SameBelow(old(disk), disk, id)
      ensures |disk.cache| <= if id < |old(disk).cache| then |old(disk).cache| else id + 1
      ensures ok ==> id < |disk.cache| && id < |disk.Settled()|
      ensures faults == old(faults) + if ok then 0 else 1
      ensures ok ==> PageAt(disk.cache, id) == PageAt(disk.Settled(), id) == ZeroPage()
    {
      hide IsRun, MayWrite, MayCommit, Forget, Spare, Still, Unfailed, Follows, LandedInPart, SameBelow, Write, PageAt;
      ghost var written;
      ghost var before := disk;
      SpareMayBeZeroed(Now(), id);
      ghost var h := Past();
      ok, written := WriteAt(PageWrite(id, ZeroPage()), None);
      OneCall(h, Past(), PageCall(id, ok));
      if written.Some? {
        WriteBelow(before, PageWrite(id, written.value));
      } else {
        SameBelowSame(before, id);
      }
    }

    // Fsync. settle names the generation that is the only one left if it succeeds.
    method Sync(ghost settle: Option<Gen>) returns (ok: bool)
      requires Valid()
      requires settle.Some? ==> Settles(Now(), Synced(disk), settle.value)
      modifies this
      ensures Valid() && |run| == |old(run)| + 1 && old(run) <= run
      ensures calls == old(calls) + [SyncCall(ok)] && faults == old(faults) + if ok then 0 else 1
      ensures ok && settle.None? ==> Now() == old(Now()).(disk := Synced(old(disk)))
      ensures ok && settle.Some? ==> Now() == State(Synced(old(disk)), settle.value, settle.value)
      ensures !ok ==> exists keep: seq<bool> ::
                        |keep| == |old(disk).log| && Now() == old(Now()).(disk := SyncLost(old(disk), keep))
      ensures disk.cache == old(disk).cache && disk.log == []
      ensures exists keep: seq<bool> ::
                (ok ==> keep == All(|old(disk).log|)) && Lands(old(disk).durable, old(disk).log, keep, disk.durable)
    {
      hide Lands;
      ghost var s := Now();
      ok := *;
      if ok {
        SettledLands(disk);
        disk := Synced(disk);
        Extend(SyncOk, if settle.Some? then State(disk, settle.value, settle.value) else s.(disk := disk));
      } else {
        assert |All(|disk.log|)| == |disk.log|;
        var keep: seq<bool> :| |keep| == |disk.log|;
        KeptLands(disk.durable, disk.log, keep);
        disk := SyncLost(disk, keep);
        Extend(SyncFail(keep), s.(disk := disk));
      }
      calls := calls + [SyncCall(ok)];
      Note(ok);
    }

    // The process dies and another one opens the file: the page cache survives.
    method RestartEvicting(gone: set<nat>)
      requires Valid()
      modifies this`disk, this`run
      ensures Valid() && |run| == |old(run)| + 1 && old(run) <= run && calls == old(calls)
      ensures Now() == old(Now()).(disk := Evicted(old(disk), gone)) && Drops(old(disk), gone, disk)
    {
      ghost var s := Now();
      EvictedDrops(disk, gone);
      disk := Evicted(disk, gone);
      Extend(Evict(gone), s.(disk := disk));
    }

    method PowerLoss(keep: seq<bool>)
      requires Valid() && |keep| == |disk.log|
      modifies this`disk, this`run
      ensures Valid() && |run| == |old(run)| + 1 && old(run) <= run && calls == old(calls)
      ensures Now() == old(Now()).(disk := PowerCut(old(disk), keep))
      ensures Lands(old(disk).durable, old(disk).log, keep, disk.durable)
      ensures disk.cache == disk.durable && disk.log == []
    {
      hide Lands;
      ghost var s := Now();
      KeptLands(disk.durable, disk.log, keep);
      disk := PowerCut(disk, keep);
      Extend(Cut(keep), s.(disk := disk));
    }

    ghost method Extend(a: Action, s': State)
      requires IsRun(run) && Step(Now(), a, s') && s'.disk == disk
      modifies this`run
      ensures Valid() && run == old(run) + [s']
    {
      var before := run;
      run := run + [s'];
      forall i, j | 0 <= i && j == i + 1 < |run|
        ensures Next(run[i], run[j])
      {
        if j < |before| {
          assert Next(before[i], before[j]);
        }
      }
    }
  }
}
