// What the commit protocol guarantees over whole runs, whatever the crashes on the way.
module CrashSafety {
  import opened Outcomes
  import opened PageLayout
  import opened SimulatedDisk
  import opened StoreFormat
  import opened Recovery
  import opened CommitProtocol

  lemma {:induction false} RunIsSafe(run: seq<State>, i: nat)
    requires IsRun(run) && i < |run|
    ensures Inv(run[i])
  {
    if i == 0 {
      GenOfIsOk(run[0].disk.cache);
    } else {
      RunIsSafe(run, i - 1);
      assert Next(run[i - 1], run[i]);
      var a :| Step(run[i - 1], a, run[i]);
      StepKeepsInv(run[i - 1], a, run[i]);
    }
  }

  lemma SurvivorYields(s: State, img: Image)
    requires Inv(s) && Survives(s.disk, img)
    ensures Yields(img, s.current) || Yields(img, s.coming)
  {
    if keep: seq<bool> :| |keep| == |s.disk.log| && img == PowerCut(s.disk, keep).cache {
      var t := s.(disk := PowerCut(s.disk, keep));
      StepKeepsInv(s, Cut(keep), t);
      HeldYields(t);
    } else {
      var gone: set<nat> :| img == Evicted(s.disk, gone).cache;
      var t := s.(disk := Evicted(s.disk, gone));
      StepKeepsInv(s, Evict(gone), t);
      HeldYields(t);
    }
  }

  // What the next open reads is one of the two generations.
  lemma HeldYields(s: State)
    requires Inv(s)
    ensures Head(s.disk.cache, s.current) ==> Yields(s.disk.cache, s.current)
    ensures Head(s.disk.cache, s.coming) ==> Yields(s.disk.cache, s.coming)
  {
    if Head(s.disk.cache, s.current) { BodyYields(s.disk.cache, s.current); }
    if Head(s.disk.cache, s.coming) { BodyYields(s.disk.cache, s.coming); }
  }

  // The central claim. At every moment of every run, over any file, after any mix of page writes, fsyncs that
  // succeed or lose writes, restarts, evictions and power cuts: whatever a further crash leaves opens as exactly
  // the generation committed last, or as the one whose page 0 had already been written.
  lemma EveryCrashRecovers(run: seq<State>, i: nat, img: Image)
    requires IsRun(run) && i < |run|
    requires Survives(run[i].disk, img)
    ensures Yields(img, run[i].current) || Yields(img, run[i].coming)
  {
    RunIsSafe(run, i);
    SurvivorYields(run[i], img);
  }

  // ---------- between two commits ----------

  // A step other than the write that announces a new generation.
  ghost predicate Quiet(s: State, s': State) {
    exists a :: Step(s, a, s') && !a.BeginCommit?
  }

  // The same checkpoint, vouching for no more pages than before.
  ghost predicate SameCheckpoint(g': Gen, g: Gen) {
    if g.Snap? then
      && g'.Snap?
      && g'.meta == g.meta && g'.entries == g.entries && g'.lists == g.lists
      && forall id :: id in g'.pages ==> id in g.pages && g'.pages[id] == g.pages[id]
    else g' == g
  }

  lemma {:induction false} QuietKeepsGeneration(run: seq<State>, i: nat, j: nat)
    requires i <= j < |run| && run[i].current == run[i].coming
    requires forall k, m :: i <= k && m == k + 1 <= j ==> Quiet(run[k], run[m])
    ensures run[j].current == run[j].coming && SameCheckpoint(run[j].current, run[i].current)
    decreases j
  {
    if i < j {
      QuietKeepsGeneration(run, i, j - 1);
      assert Quiet(run[j - 1], run[j]);
    }
  }

  ghost predicate Announces(s: State, s': State) {
    exists data: Page, to: Gen :: Step(s, BeginCommit(data, to), s')
  }

  // A second generation is on its way only if page 0 has been written with it.
  lemma TwoMeansAnnounced(run: seq<State>, i: nat, j: nat)
    requires IsRun(run) && i <= j < |run|
    requires run[i].current == run[i].coming && run[j].current != run[j].coming
    ensures exists k, m :: i <= k && m == k + 1 <= j && Announces(run[k], run[m])
  {
    if forall k, m :: i <= k && m == k + 1 <= j ==> Quiet(run[k], run[m]) {
      QuietKeepsGeneration(run, i, j);
    } else {
      var k, m :| i <= k && m == k + 1 <= j && !Quiet(run[k], run[m]);
      assert Next(run[k], run[m]);
      var a :| Step(run[k], a, run[m]);
      assert a.BeginCommit?;
      assert Announces(run[k], run[m]);
    }
  }

  // Recovery is stable. Once a generation is settled, nothing short of announcing the next one changes what a
  // crash recovers, however many unreferenced pages have been overwritten in between.
  lemma RecoveryIsStable(run: seq<State>, i: nat, j: nat, img: Image)
    requires IsRun(run) && i <= j < |run|
    requires run[i].current == run[i].coming
    requires forall k, m :: i <= k && m == k + 1 <= j ==> Quiet(run[k], run[m])
    requires Survives(run[j].disk, img)
    ensures Yields(img, run[j].current) && SameCheckpoint(run[j].current, run[i].current)
  {
    QuietKeepsGeneration(run, i, j);
    EveryCrashRecovers(run, j, img);
  }

  // ---------- copy on write ----------

  // A quiet step that rewrites no page the current checkpoint vouches for.
  ghost predicate CopyStep(s: State, s': State) {
    exists a ::
      && Step(s, a, s') && !a.BeginCommit?
      && (a.WritePage? && s.current.Snap? ==> a.w.id !in s.current.pages)
  }

  lemma {:induction false} CopyingKeepsPages(run: seq<State>, i: nat, j: nat)
    requires i <= j < |run| && run[i].current == run[i].coming
    requires forall k, m :: i <= k && m == k + 1 <= j ==> CopyStep(run[k], run[m])
    ensures run[j].current == run[j].coming == run[i].current
    decreases j
  {
    if i < j {
      CopyingKeepsPages(run, i, j - 1);
      assert CopyStep(run[j - 1], run[j]);
    }
  }

  // If every page written since the checkpoint is one it does not reference, each referenced page comes back byte
  // for byte.
  lemma CopyOnWriteLosesNothing(run: seq<State>, i: nat, j: nat, img: Image)
    requires IsRun(run) && i <= j < |run|
    requires run[i].current == run[i].coming && run[i].current.Snap? && Whole(run[i].current)
    requires forall k, m :: i <= k && m == k + 1 <= j ==> CopyStep(run[k], run[m])
    requires Survives(run[j].disk, img)
    ensures var g := run[i].current;
            && Yields(img, g)
            && forall id :: id in Referenced(g.meta, g.entries) ==> id < |img| && img[id] == g.pages[id]
  {
    CopyingKeepsPages(run, i, j);
    EveryCrashRecovers(run, j, img);
  }

  // And only then: rewrite one referenced page in place, and there is a crash that brings back the same
  // checkpoint with other bytes on that page.
  lemma InPlaceWriteShowsThrough(s: State, w: PageWrite, s': State)
    requires Inv(s) && s.current == s.coming && s.current.Snap?
    requires Step(s, WritePage(w), s')
    requires w.id in s.current.pages && w.data != s.current.pages[w.id]
    ensures exists img ::
              && Survives(s'.disk, img)
              && Recover(img) == Ok(Recovered(s.current.meta, s.current.entries, s.current.lists))
              && !Shows(img, s.current.pages)
  {
    var img := Evicted(s'.disk, {}).cache;
    assert img == s'.disk.cache;
    StepKeepsInv(s, WritePage(w), s');
    HeldYields(s');
    assert Survives(s'.disk, img);
    assert img[w.id] == w.data;
  }
}
