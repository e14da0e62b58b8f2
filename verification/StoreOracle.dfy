// What a caller may rely on, with no disk in sight: a store is the root, the pages in use and their bytes; a checkpoint
// is a copy of that, and a crash goes back to the copy. Module StoreRuns proves that the store does nothing else.
module StoreOracle {
  import opened Outcomes
  import opened Bytes
  import opened PageLayout
  import opened StoreFormat

  // The root, the pages in use, and the bytes of those that are certain. A page stops being certain when a write to
  // it fails half way, or when it is rewritten in place and a crash follows before the next checkpoint.
  datatype Snapshot = Snapshot(root: PageId, owned: set<PageId>, pages: map<PageId, Page>)

  // Stopped: closed, or poisoned; every call is refused with this error. Down: no store is open on the file.
  datatype Status = Down | Running | Stopped(error: Error)

  // durable is what a crash brings back; next, after a checkpoint that failed for good, what it may bring back instead.
  datatype Oracle = Oracle(status: Status, live: Snapshot, durable: Snapshot, next: Option<Snapshot>)

  // A power cut keeps any of the unsynced writes, a restart drops any of the clean pages from the cache.
  datatype Crash = Restart(gone: set<nat>) | PowerCut(keep: seq<bool>)

  datatype Event =
    | SetRoot(id: PageId)
    | Root
    | Read(id: PageId)
    | Write(p: Page)
    | Allocate(kind: byte)
    | Free(id: PageId)
    | Sync
    | Checkpoint
    | Verify
    | Close
    | Discard
    | Reopen(crash: Crash)

  datatype Outcome = NoStore | Did(err: Option<Error>) | Gave(page: Result<Page>) | RootIs(id: PageId)

  const EMPTY := Snapshot(NO_PAGE, {}, map[])
  const DONE := Did(None)

  function Failed(e: Error): Outcome {
    Did(Some(e))
  }

  // The bytes of this page are p from now on, or no longer certain. A copy that still has the page in use is not
  // certain of it either: its bytes have been rewritten in place.
  function Wrote(o: Oracle, id: PageId, p: Option<Page>): Oracle {
    var pages := if p.Some? then o.live.pages[id := p.value] else o.live.pages - {id};
    o.(live := o.live.(pages := pages), durable := o.durable.(pages := o.durable.pages - {id}))
  }

  function Took(o: Oracle, p: Page): Oracle {
    o.(live := Snapshot(o.live.root, o.live.owned + {Id(p)}, o.live.pages[Id(p) := p]))
  }

  function GaveBack(o: Oracle, id: PageId): Oracle {
    o.(live := Snapshot(o.live.root, o.live.owned - {id}, o.live.pages - {id}))
  }

  // What a store in use may answer, and what becomes of it.
  ghost predicate Serves(o: Oracle, e: Event, out: Outcome, o': Oracle) {
    match e
    case SetRoot(id) =>
      if id == NO_PAGE || id in o.live.owned then out == DONE && o' == o.(live := o.live.(root := id))
      else o' == o && (out == Failed(NotAllocated) || out == Failed(BadPageId))
    case Root => o' == o && out == RootIs(o.live.root)
    case Read(id) =>
      && o' == o && out.Gave?
      && if id in o.live.owned then
           if out.page.Ok? then id in o.live.pages ==> out.page.value == o.live.pages[id] else out.page.error == Io
         else out.page == Err(NotAllocated) || out.page == Err(BadPageId)
    case Write(p) =>
      if Id(p) in o.live.owned then
        || (out == DONE && o' == Wrote(o, Id(p), Some(p)))
        || (out == Failed(Io) && o' == Wrote(o, Id(p), None))
      else o' == o && (out == Failed(NotAllocated) || out == Failed(BadPageId))
    case Allocate(kind) =>
      && out.Gave?
      && if out.page.Ok? then
           var p := out.page.value;
           && p == NewPage(Id(p), kind) && Id(p) !in o.live.owned && Id(p) !in o.durable.owned
           && o' == Took(o, p)
         else o' == o && (out.page.error == Io || out.page.error == Full)
    case Free(id) =>
      if id in o.live.owned && id != o.live.root then out == DONE && o' == GaveBack(o, id)
      else o' == o && out.Did? && out.err.Some?
    case Sync =>
      || (out == DONE && o' == o)
      || (out == Failed(Poisoned(Io)) && o' == o.(status := Stopped(Poisoned(Io))))
    case Checkpoint =>
      || (out == DONE && o' == o.(durable := o.live))
      || ((out == Failed(Io) || out == Failed(Full)) && o' == o)
      || (out == Failed(Poisoned(Io)) && o' == o.(status := Stopped(Poisoned(Io)), next := Some(o.live)))
    case Verify => o' == o && (out == DONE || out == Failed(Io))
    case Close =>
      || ((out == DONE || out == Failed(Io)) && o' == o.(status := Stopped(Closed), durable := o.live))
      || ((out == Failed(Io) || out == Failed(Full)) && o' == o.(status := Stopped(Closed)))
      || (out == Failed(Poisoned(Io)) && o' == o.(status := Stopped(Poisoned(Io)), next := Some(o.live)))
    case Discard => (out == DONE || out == Failed(Io)) && o' == o.(status := Stopped(Closed))
    case Reopen(_) => false
  }

  // A closed or poisoned store refuses everything and changes nothing.
  ghost predicate Refuses(o: Oracle, e: Event, out: Outcome, error: Error) {
    match e
    case Root => out == RootIs(o.live.root)
    case Read(_) => out == Gave(Err(error))
    case Allocate(_) => out == Gave(Err(error))
    case Close => out == DONE || (error.Poisoned? && out == Failed(error))
    case Discard => out == DONE || (error.Poisoned? && out == Failed(Io))
    case _ => out == Failed(error)
  }

  // The process ends, in whatever way, and the file is opened again: it comes back as the last checkpoint, or, if the
  // one after it failed for good, possibly as that one.
  ghost predicate ComesBack(o: Oracle, out: Outcome, o': Oracle) {
    || (&& out == DONE
        && (o'.durable == o.durable || o.next == Some(o'.durable))
        && o' == Oracle(Running, o'.durable, o'.durable, None))
    || ((out == Failed(Io) || out == Failed(Poisoned(Io))) && o' == o.(status := Down))
  }

  ghost predicate Moves(o: Oracle, e: Event, out: Outcome, o': Oracle) {
    if e.Reopen? then ComesBack(o, out, o')
    else match o.status
      case Down => out == NoStore && o' == o
      case Stopped(error) => o' == o && Refuses(o, e, out, error)
      case Running => Serves(o, e, out, o')
  }

  // os are the oracle's states along a run of events with these outcomes.
  ghost predicate Behaves(os: seq<Oracle>, es: seq<Event>, outs: seq<Outcome>) {
    && |outs| == |es| && |os| == |es| + 1
    && forall i :: 0 <= i < |es| ==> Moves(os[i], es[i], outs[i], os[i + 1])
  }

  // ---------- what follows for a caller ----------

  predicate Commits(e: Event) {
    e.Checkpoint? || e.Close?
  }

  predicate Touches(e: Event, id: PageId) {
    (e.Write? && Id(e.p) == id) || (e.Free? && e.id == id)
  }

  // Between two commits, through any crashes and reopenings, the copy stays what it is but for pages rewritten in
  // place.
  lemma {:induction false} CopyStays(os: seq<Oracle>, es: seq<Event>, outs: seq<Outcome>, i: nat, j: nat)
    requires Behaves(os, es, outs) && i <= j <= |es| && os[i].next.None?
    requires forall k :: i <= k < j ==> !Commits(es[k])
    ensures os[j].next.None? && os[j].durable.root == os[i].durable.root && os[j].durable.owned == os[i].durable.owned
    ensures forall id :: id in os[i].durable.pages && (forall k :: i <= k < j ==> !Touches(es[k], id)) ==>
              id in os[j].durable.pages && os[j].durable.pages[id] == os[i].durable.pages[id]
    decreases j
  {
    if i < j {
      CopyStays(os, es, outs, i, j - 1);
      assert Moves(os[j - 1], es[j - 1], outs[j - 1], os[j]);
    }
  }

  // Only pages in use have certain bytes, and a store in use has one copy to go back to.
  ghost predicate Sound(o: Oracle) {
    && o.live.pages.Keys <= o.live.owned && o.durable.pages.Keys <= o.durable.owned
    && (o.next.Some? ==> o.next.value.pages.Keys <= o.next.value.owned)
    && (o.status.Running? ==> o.next.None?)
  }

  lemma {:induction false} StaysSound(os: seq<Oracle>, es: seq<Event>, outs: seq<Outcome>, j: nat)
    requires Behaves(os, es, outs) && Sound(os[0]) && j <= |es|
    ensures Sound(os[j])
  {
    if j > 0 {
      StaysSound(os, es, outs, j - 1);
      assert Moves(os[j - 1], es[j - 1], outs[j - 1], os[j]);
    }
  }

  // What was written stays certain as long as the store is not reopened and the page is neither rewritten nor freed.
  lemma {:induction false} WrittenStays(os: seq<Oracle>, es: seq<Event>, outs: seq<Outcome>, i: nat, j: nat, id: PageId)
    requires Behaves(os, es, outs) && Sound(os[0]) && i <= j <= |es| && id in os[i].live.pages
    requires forall k :: i <= k < j ==> !es[k].Reopen? && !Touches(es[k], id)
    ensures id in os[j].live.pages && os[j].live.pages[id] == os[i].live.pages[id]
    decreases j
  {
    if i < j {
      WrittenStays(os, es, outs, i, j - 1, id);
      StaysSound(os, es, outs, j - 1);
      assert Moves(os[j - 1], es[j - 1], outs[j - 1], os[j]);
    }
  }

  // A page written at w, checkpointed at c, and then, after any number of crashes, read from the store that the last
  // reopening at r brought back, reads as it was written, if nobody has rewritten or freed it or committed again.
  lemma WrittenReadsBack(os: seq<Oracle>, es: seq<Event>, outs: seq<Outcome>, w: nat, c: nat, r: nat, q: nat, p: Page)
    requires Behaves(os, es, outs) && Sound(os[0]) && w < c < r < q < |es|
    requires es[w] == Write(p) && outs[w] == DONE && es[c].Checkpoint? && outs[c] == DONE
    requires es[r].Reopen? && outs[r] == DONE && es[q] == Read(Id(p)) && outs[q].Gave? && outs[q].page.Ok?
    requires forall k :: w < k < c || r < k < q ==> !es[k].Reopen?
    requires forall k :: c < k < q ==> !Commits(es[k])
    requires forall k :: w < k < q ==> !Touches(es[k], Id(p))
    ensures outs[q].page.value == p
  {
    var id := Id(p);
    assert Moves(os[w], es[w], outs[w], os[w + 1]);
    WrittenStays(os, es, outs, w + 1, c, id);
    assert Moves(os[c], es[c], outs[c], os[c + 1]);
    StaysSound(os, es, outs, c + 1);
    CopyStays(os, es, outs, c + 1, r);
    assert Moves(os[r], es[r], outs[r], os[r + 1]);
    WrittenStays(os, es, outs, r + 1, q, id);
    assert Moves(os[q], es[q], outs[q], os[q + 1]);
  }
}
