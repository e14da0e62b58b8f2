// A disk behind a page cache, one entry per 4096-byte page: what the platter holds, what a read sees,
// and the writes made since the last fsync. The fault steps are those of the test suite's memFile.
module SimulatedDisk {
  import opened Bytes
  import opened PageLayout

  type Image = seq<Page>

  datatype PageWrite = PageWrite(id: PageId, data: Page)

  datatype Disk = Disk(durable: Image, cache: Image, log: seq<PageWrite>) {

    // The durable image once every logged write has reached it.
    ghost function Settled(): Image { Apply(durable, log) }
  }

  // A write past the end extends the file with zeros.
  function Put(img: Image, w: PageWrite): (r: Image)
    ensures |r| == if w.id < |img| then |img| else w.id + 1
    ensures r[w.id] == w.data
    ensures forall i :: 0 <= i < |r| && i != w.id ==> r[i] == PageAt(img, i)
  {
    if w.id < |img| then img[w.id := w.data] else img + seq(w.id - |img|, _ => ZeroPage()) + [w.data]
  }

  // What reading slot i yields once the file is long enough to have one.
  function PageAt(img: Image, i: nat): Page {
    if i < |img| then img[i] else ZeroPage()
  }

  function Apply(img: Image, log: seq<PageWrite>): Image {
    if log == [] then img else Put(Apply(img, log[..|log| - 1]), log[|log| - 1])
  }

  // The image left when only the writes marked in keep reach the platter, in order.
  function ApplyKept(img: Image, log: seq<PageWrite>, keep: seq<bool>): Image
    requires |keep| == |log|
  {
    if log == [] then img
    else
      var n := |log| - 1;
      var rest := ApplyKept(img, log[..n], keep[..n]);
      if keep[n] then Put(rest, log[n]) else rest
  }

  function Write(d: Disk, w: PageWrite): Disk {
    Disk(d.durable, Put(d.cache, w), d.log + [w])
  }

  function Synced(d: Disk): Disk {
    Disk(Apply(d.durable, d.log), d.cache, [])
  }

  // A failed fsync: some writes land, the rest are marked clean and never will, and reads still see them all.
  function SyncLost(d: Disk, keep: seq<bool>): Disk
    requires |keep| == |d.log|
  {
    Disk(ApplyKept(d.durable, d.log, keep), d.cache, [])
  }

  predicate Dirty(log: seq<PageWrite>, id: int) {
    exists k :: 0 <= k < |log| && log[k].id == id
  }

  // A restart whose page cache has dropped some clean pages: they read back from the platter.
  function Evicted(d: Disk, gone: set<nat>): Disk {
    Disk(d.durable,
         seq(|d.cache|, i requires 0 <= i < |d.cache| =>
           if i in gone && !Dirty(d.log, i) then PageAt(d.durable, i) else d.cache[i]),
         d.log)
  }

  function PowerCut(d: Disk, keep: seq<bool>): Disk
    requires |keep| == |d.log|
  {
    var img := ApplyKept(d.durable, d.log, keep);
    Disk(img, img, [])
  }

  // A write error: the first k bytes replaced what was there, the rest did not change.
  function Torn(before: Page, after: Page, k: nat): (p: Page)
    requires k <= SIZE
    ensures forall i :: 0 <= i < SIZE ==> p[i] == if i < k then after[i] else before[i]
  {
    after[..k] + before[k..]
  }

  lemma ApplyAppend(img: Image, log: seq<PageWrite>, w: PageWrite)
    ensures Apply(img, log + [w]) == Put(Apply(img, log), w)
  {
    assert (log + [w])[..|log|] == log;
  }

  lemma WriteSettles(d: Disk, w: PageWrite)
    ensures Write(d, w).Settled() == Put(d.Settled(), w)
  {
    ApplyAppend(d.durable, d.log, w);
  }

  // Nothing below page lo changed, in the cache or on its way to the platter, and neither image shrank.
  ghost predicate SameBelow(d: Disk, d': Disk, lo: int) {
    && |d.cache| <= |d'.cache| && |d.Settled()| <= |d'.Settled()|
    && forall id: PageId :: id < lo ==>
         PageAt(d'.cache, id) == PageAt(d.cache, id) && PageAt(d'.Settled(), id) == PageAt(d.Settled(), id)
  }

  ghost predicate ZeroBetween(d: Disk, lo: int, hi: int) {
    forall id: PageId :: lo <= id < hi ==>
      && id < |d.cache| && id < |d.Settled()|
      && PageAt(d.cache, id) == PageAt(d.Settled(), id) == ZeroPage()
  }

  lemma ZeroBetweenReaches(d: Disk, lo: PageId, hi: u32)
    requires ZeroBetween(d, lo, hi) && lo < hi
    ensures hi <= |d.cache| && hi <= |d.Settled()|
  {
    var last: PageId := hi - 1;
    assert PageAt(d.cache, last) == ZeroPage();
  }

  // ---------- what the faults leave, page by page ----------

  ghost predicate NoneKept(log: seq<PageWrite>, keep: seq<bool>, id: int)
    requires |keep| == |log|
  {
    forall j :: 0 <= j < |log| && keep[j] ==> log[j].id != id
  }

  // Write k is kept, and no later one to the same page is.
  ghost predicate LastKept(log: seq<PageWrite>, keep: seq<bool>, k: int)
    requires |keep| == |log|
  {
    0 <= k < |log| && keep[k] && forall j :: k < j < |log| && keep[j] ==> log[j].id != log[k].id
  }

  // r is img after the kept writes: every page has the data of the last kept write to it, or what it had, and the
  // file is as long as it was or ends with a page that was written.
  ghost predicate Lands(img: Image, log: seq<PageWrite>, keep: seq<bool>, r: Image) {
    && |keep| == |log| && |img| <= |r|
    && (forall k :: 0 <= k < |log| && keep[k] ==> log[k].id < |r|)
    && (|r| == |img| || exists k :: 0 <= k < |log| && keep[k] && log[k].id + 1 == |r|)
    && (forall k :: 0 <= k < |log| && LastKept(log, keep, k) ==> PageAt(r, log[k].id) == log[k].data)
    && (forall id: nat :: NoneKept(log, keep, id) ==> PageAt(r, id) == PageAt(img, id))
  }

  function All(n: nat): (keep: seq<bool>)
    ensures |keep| == n && forall i :: 0 <= i < n ==> keep[i]
  {
    seq(n, _ => true)
  }

  lemma {:induction false} KeptLands(img: Image, log: seq<PageWrite>, keep: seq<bool>)
    requires |keep| == |log|
    ensures Lands(img, log, keep, ApplyKept(img, log, keep))
  {
    if log != [] {
      var n := |log| - 1;
      KeptLands(img, log[..n], keep[..n]);
      LandsOneMore(img, log, keep, ApplyKept(img, log[..n], keep[..n]));
    }
  }

  lemma PutReads(img: Image, w: PageWrite)
    ensures forall id: nat :: PageAt(Put(img, w), id) == if id == w.id then w.data else PageAt(img, id)
    ensures |Put(img, w)| == if w.id < |img| then |img| else w.id + 1
  {
  }

  lemma LandsOneMore(img: Image, log: seq<PageWrite>, keep: seq<bool>, rest: Image)
    requires |keep| == |log| > 0 && Lands(img, log[..|log| - 1], keep[..|log| - 1], rest)
    ensures var n := |log| - 1; Lands(img, log, keep, if keep[n] then Put(rest, log[n]) else rest)
  {
    hide Put, PageAt, NoneKept, LastKept;
    var n := |log| - 1;
    var r := if keep[n] then Put(rest, log[n]) else rest;
    PutReads(rest, log[n]);
    forall k | 0 <= k < |log| && LastKept(log, keep, k)
      ensures PageAt(r, log[k].id) == log[k].data
    {
      LastKeptBut(log, keep, k);
    }
    forall id: nat | NoneKept(log, keep, id)
      ensures PageAt(r, id) == PageAt(img, id)
    {
      NoneKeptBut(log, keep, id);
    }
    LandsLength(img, log, keep, rest, r);
  }

  lemma LastKeptBut(log: seq<PageWrite>, keep: seq<bool>, k: int)
    requires |keep| == |log| > 0 && LastKept(log, keep, k)
    ensures var n := |log| - 1;
            if k == n then keep[n]
            else LastKept(log[..n], keep[..n], k) && log[..n][k] == log[k] && (keep[n] ==> log[n].id != log[k].id)
    ensures 0 <= k < |log|
  {
  }

  lemma NoneKeptBut(log: seq<PageWrite>, keep: seq<bool>, id: int)
    requires |keep| == |log| > 0 && NoneKept(log, keep, id)
    ensures var n := |log| - 1; NoneKept(log[..n], keep[..n], id) && (keep[n] ==> log[n].id != id)
  {
  }

  lemma LandsLength(img: Image, log: seq<PageWrite>, keep: seq<bool>, rest: Image, r: Image)
    requires |keep| == |log| > 0 && Lands(img, log[..|log| - 1], keep[..|log| - 1], rest)
    requires var n := |log| - 1;
             |r| == if keep[n] && log[n].id >= |rest| then log[n].id + 1 else |rest|
    ensures |img| <= |r| && (forall k :: 0 <= k < |log| && keep[k] ==> log[k].id < |r|)
    ensures |r| == |img| || exists k :: 0 <= k < |log| && keep[k] && log[k].id + 1 == |r|
  {
    hide PageAt, NoneKept, LastKept;
    var n := |log| - 1;
    forall k | 0 <= k < |log| && keep[k]
      ensures log[k].id < |r|
    {
      assert k < n ==> keep[..n][k] && log[..n][k].id < |rest|;
    }
    if |r| == |rest| > |img| {
      var k :| 0 <= k < n && keep[..n][k] && log[..n][k].id + 1 == |rest|;
      assert keep[k] && log[k].id + 1 == |r|;
    } else if |r| > |rest| {
      assert keep[n] && log[n].id + 1 == |r|;
    }
  }

  lemma {:induction false} LastOrNone(log: seq<PageWrite>, keep: seq<bool>, id: int) returns (k: int)
    requires |keep| == |log|
    ensures if 0 <= k then LastKept(log, keep, k) && log[k].id == id else NoneKept(log, keep, id)
  {
    k := |log| - 1;
    while k >= 0 && !(keep[k] && log[k].id == id)
      invariant -1 <= k < |log|
      invariant forall j :: k < j < |log| && keep[j] ==> log[j].id != id
    {
      k := k - 1;
    }
  }

  // That says what the image is.
  lemma LandsOnce(img: Image, log: seq<PageWrite>, keep: seq<bool>, r: Image, r': Image)
    requires Lands(img, log, keep, r) && Lands(img, log, keep, r')
    ensures r == r'
  {
    forall id: nat
      ensures PageAt(r, id) == PageAt(r', id)
    {
      var k := LastOrNone(log, keep, id);
    }
    assert forall i :: 0 <= i < |r| && i < |r'| ==> r[i] == PageAt(r, i) == PageAt(r', i) == r'[i];
  }

  lemma {:induction false} AllKept(img: Image, log: seq<PageWrite>)
    ensures ApplyKept(img, log, All(|log|)) == Apply(img, log)
  {
    if log != [] {
      var n := |log| - 1;
      AllKept(img, log[..n]);
      assert All(|log|)[..n] == All(n);
    }
  }

  // A write waits: reads show it, the platter does not, and the next fsync brings all of them there.
  lemma WriteWaits(d: Disk, w: PageWrite)
    ensures var t := Write(d, w);
            && t.durable == d.durable && PageAt(t.cache, w.id) == w.data
            && (forall id: nat :: id != w.id ==> PageAt(t.cache, id) == PageAt(d.cache, id))
            && Lands(t.durable, d.log + [w], All(|d.log| + 1), Synced(t).durable)
            && Synced(t).cache == t.cache && Synced(t).log == []
  {
    AllKept(d.durable, d.log + [w]);
    KeptLands(d.durable, d.log + [w], All(|d.log| + 1));
  }

  lemma SettledLands(d: Disk)
    ensures Lands(d.durable, d.log, All(|d.log|), d.Settled())
  {
    AllKept(d.durable, d.log);
    KeptLands(d.durable, d.log, All(|d.log|));
  }

  // t is d after the clean pages among gone have been dropped: each of them reads from the platter, every other page
  // as before.
  ghost predicate Drops(d: Disk, gone: set<nat>, t: Disk) {
    && t.durable == d.durable && t.log == d.log && |t.cache| == |d.cache|
    && forall id: nat :: id < |d.cache| ==>
         t.cache[id] ==
         if id in gone && forall k :: 0 <= k < |d.log| ==> d.log[k].id != id then PageAt(d.durable, id) else d.cache[id]
  }

  lemma EvictedDrops(d: Disk, gone: set<nat>)
    ensures Drops(d, gone, Evicted(d, gone))
  {
  }
}
