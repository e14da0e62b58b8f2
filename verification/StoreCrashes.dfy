// Crashes of a store in use, wherever they fall: between two calls, inside one, or after a failure has poisoned it.
module StoreCrashes {
  import opened Bytes
  import opened Outcomes
  import opened SimulatedDisk
  import opened StoreFormat
  import opened Recovery
  import opened CommitProtocol
  import opened CrashSafety
  import opened PageFile
  import opened LiveState
  import opened StoreWrites
  import opened Checkpointing
  import opened Opening
  import opened PageStore

  // What a checkpoint of the books l commits: their root, the next number, and the same pages in use.
  ghost predicate Commits(l: Live, r: Recovered) {
    && r.meta.root == l.root
    && r.meta.checkpoint == (l.durable.checkpoint + 1) % TWO_TO_THE_32
    && forall id :: Owned(Reopened(r), id) <==> Owned(l, id)
  }

  ghost predicate OldOrNew(l: Live, r: Recovered) {
    r.meta == l.durable || Commits(l, r)
  }

  // img opens as the generation g.
  ghost predicate Opens(img: Image, g: Gen) {
    && g.Snap? && Yields(img, g)
    && !IsBlank(img) && Recover(img) == Ok(Recovered(g.meta, g.entries, g.lists))
  }

  lemma SnapOpens(img: Image, g: Gen)
    requires g.Snap? && Yields(img, g)
    ensures Opens(img, g) && Shows(img, g.pages)
  {
  }

  // A crash while a checkpoint of the books l is under way, at any moment after its first call: the old checkpoint
  // comes back, or the new one, complete.
  lemma CrashInsideCheckpoint(h0: History, h: History, l: Live, i: nat, img: Image) returns (g: Gen)
    requires IsRun(h.run) && Through(h0, h, l) && Ready(l, Last(h0))
    requires |h0.run| <= i < |h.run| && Survives(h.run[i].disk, img)
    ensures Opens(img, g) && OldOrNew(l, Recover(img).value)
    ensures g == Last(h0).current || (InFlight(l, Last(h0).disk, g) && VouchesFor(l, Last(h0).disk, g))
    ensures g != Last(h0).current && Agreed(l, Last(h0)) ==> Whole(g)
  {
    hide Recover, Survives, IsRun, Agreed, Whole, Accounted, Owned, Referenced, Yields, VouchesFor;
    EveryCrashRecovers(h.run, i, img);
    assert Keeps(l, Last(h0), h.run[i]);
    g := if Yields(img, h.run[i].current) then h.run[i].current else h.run[i].coming;
    SnapOpens(img, g);
    if g != Last(h0).current && Agreed(l, Last(h0)) {
      VouchesForAll(l, Last(h0), g);
    }
  }

  // A crash inside any other call: the old checkpoint comes back.
  lemma CrashInsideCall(h0: History, h: History, l: Live, i: nat, img: Image) returns (g: Gen)
    requires IsRun(h.run) && (Still(h0, h) || Softly(h0, h)) && Ready(l, Last(h0))
    requires |h0.run| <= i < |h.run| && Survives(h.run[i].disk, img)
    ensures Opens(img, g) && SameCheckpoint(g, Last(h0).current) && Recover(img).value.meta == l.durable
  {
    hide Recover, Survives, IsRun, Accounted, Yields;
    EveryCrashRecovers(h.run, i, img);
    assert Still(h0, h) ==> SameGens(Last(h0), h.run[i]);
    g := if Yields(img, h.run[i].current) then h.run[i].current else h.run[i].coming;
    SnapOpens(img, g);
  }

  // A crash between two calls. A store that nothing has poisoned, open or closed, comes back at its last checkpoint;
  // a poisoned one there or at the checkpoint whose commit failed. Either way with every page it vouches for.
  lemma StoreSurvives(store: Store, img: Image) returns (g: Gen)
    requires store.Valid() && Survives(store.file.disk, img)
    ensures g == store.file.Now().current || (store.poisoned.Some? && g == store.file.Now().coming)
    ensures g.Snap? && Opens(img, g) && Shows(img, g.pages) && OldOrNew(store.View(), Recover(img).value)
    ensures store.poisoned.None? ==> Recover(img).value.meta == store.durable
  {
    hide Recover, Survives, IsRun, Accounted, Owned, Referenced, Yields;
    var s := store.file.Now();
    EveryCrashRecovers(store.file.run, |store.file.run| - 1, img);
    g := if Yields(img, s.current) then s.current else s.coming;
    SnapOpens(img, g);
  }

  // The machine stops, by a power cut that keeps any subset of the unsynced writes or by a restart that drops any
  // clean pages, and the file is opened again. Only I/O can keep it from coming back, and it comes back as the last
  // checkpoint, or, for a store that was poisoned, possibly as the one whose commit failed; with the bytes of every
  // page that checkpoint vouches for, on the platter too, so that the next crash finds them as well.
  method CrashAndReopen(store: Store, power: bool, keep: seq<bool>, gone: set<nat>)
      returns (r: Result<Store>, ghost g: Gen)
    requires store.Valid() && |keep| == |store.file.disk.log|
    modifies store.file
    ensures store.file.Valid()
    ensures r.Err? ==> r.error == Io
    ensures r.Err? <==> store.file.faults != old(store.file.faults)
    ensures r.Ok? ==> fresh(r.value) && r.value.file == store.file && r.value.Valid() && r.value.Usable()
    ensures g == old(store.file.Now()).current || (store.poisoned.Some? && g == old(store.file.Now()).coming)
    ensures r.Ok? ==> Back(r.value.View(), store.file.Now(), g)
    ensures r.Ok? && Whole(g) ==> Agreed(r.value.View(), store.file.Now())
    ensures r.Ok? && store.poisoned.None? ==> r.value.durable == store.durable
    ensures r.Ok? && r.value.durable != store.durable ==>
              && r.value.root == store.root
              && r.value.durable.checkpoint == (store.durable.checkpoint + 1) % TWO_TO_THE_32
              && forall id :: Owned(r.value.View(), id) <==> Owned(store.View(), id)
  {
    hide Recover, Survives, IsRun, Accounted, Owned, Referenced, Yields, Still, Through, Lingers, Linked, Agreed,
      ReadsBut0, Back, Opens, Shows, Reopened, OldOrNew, Commits, Follows, Before, PowerCut, Evicted, IsBlank, Whole;
    ghost var d, s := store.file.disk, store.file.Now();
    ghost var img := if power then PowerCut(d, keep).cache else Evicted(d, gone).cache;
    CrashLeaves(d, power, keep, gone);
    ghost var seen := StoreSurvives(store, img);
    OneUnlessPoisoned(store);
    if power {
      store.file.PowerLoss(keep);
    } else {
      store.file.RestartEvicting(gone);
    }
    OpensAccepts(img, seen);
    ReopensAs(store.View(), Recover(img).value);
    r := OpenFile(store.file);
    g := if r.Ok? then store.file.Now().current else s.current;
  }

  lemma OneUnlessPoisoned(store: Store)
    requires store.Valid()
    ensures store.poisoned.None? ==> store.file.Now().current == store.file.Now().coming
  {
  }

  lemma OpensAccepts(img: Image, g: Gen)
    requires Opens(img, g)
    ensures !IsBlank(img) && Recover(img).Ok?
  {
  }

  lemma ReopensAs(l: Live, r: Recovered)
    requires OldOrNew(l, r)
    ensures var l' := Reopened(r);
            || l'.durable == l.durable
            || (&& l'.root == l.root
                && l'.durable.checkpoint == (l.durable.checkpoint + 1) % TWO_TO_THE_32
                && forall id :: Owned(l', id) <==> Owned(l, id))
    ensures r.meta == l.durable ==> Reopened(r).durable == l.durable
  {
    hide Owned;
  }

  lemma CrashLeaves(d: Disk, power: bool, keep: seq<bool>, gone: set<nat>)
    requires |keep| == |d.log|
    ensures Survives(d, if power then PowerCut(d, keep).cache else Evicted(d, gone).cache)
  {
  }
}
