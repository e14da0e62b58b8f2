// The live state of a store, between two checkpoints: which pages are handed out, which of those are free, pending
// or carry the free list. Every operation keeps the books balanced and says what it does to the pages in use.
module LiveState {
  import opened Bytes
  import opened PageLayout
  import opened SimulatedDisk
  import opened StoreFormat
  import opened Recovery
  import opened CommitProtocol

  datatype PageState = Free | Pending | FreeListPage

  datatype Live = Live(
    durable: Meta,
    root: PageId,
    nextPage: PageId,
    filePages: u32,
    free: seq<PageId>,
    pending: seq<PageId>,
    listPage: seq<PageId>,
    status: map<PageId, PageState>)

  predicate InRange(l: Live, id: PageId) {
    id != META_PAGE && id < l.nextPage
  }

  predicate Owned(l: Live, id: PageId) {
    InRange(l, id) && id !in l.status
  }

  ghost predicate Listed(l: Live, ids: seq<PageId>, st: PageState) {
    && Distinct(ids) && Within(ids, l.nextPage)
    && forall i :: 0 <= i < |ids| ==> ids[i] in l.status && l.status[ids[i]] == st
  }

  // Pages 1 to nextPage - 1 are each in use, free, pending or a list page, and in one of these only.
  ghost predicate Accounted(l: Live) {
    && 1 <= l.nextPage <= l.filePages
    && Listed(l, l.free, Free) && Listed(l, l.pending, Pending) && Listed(l, l.listPage, FreeListPage)
    && (forall id :: id in l.status ==> id in l.free || id in l.pending || id in l.listPage)
    && (l.root == NO_PAGE || Owned(l, l.root))
  }

  function GrowTo(filePages: u32): (grown: u32)
    ensures filePages <= grown <= filePages + CHUNK_PAGES
    ensures grown == filePages <==> filePages == MAX_PAGES
    ensures grown == filePages + 16 || grown == 0xFFFF_FFFF
  {
    if filePages + CHUNK_PAGES > MAX_PAGES then MAX_PAGES else filePages + CHUNK_PAGES
  }

  // What the store knows right after opening a checkpoint.
  function Reopened(r: Recovered): Live {
    Live(r.meta, r.meta.root, r.meta.nextPage, r.meta.filePages, r.entries, [], r.lists, StatusOf(r.entries, r.lists))
  }

  function StatusOf(entries: seq<PageId>, lists: seq<PageId>): map<PageId, PageState> {
    map id | id in entries || id in lists :: if id in lists then FreeListPage else Free
  }

  // ---------- the same by counting ----------

  lemma {:induction false} DistinctIsOnce(ids: seq<PageId>)
    ensures Distinct(ids) <==> forall id :: multiset(ids)[id] <= 1
  {
    if ids != [] {
      var n := |ids| - 1;
      DistinctIsOnce(ids[..n]);
      assert ids == ids[..n] + [ids[n]];
      assert multiset(ids) == multiset(ids[..n]) + multiset{ids[n]};
      if Distinct(ids) {
        assert ids[n] !in ids[..n];
      }
      if forall id :: multiset(ids)[id] <= 1 {
        assert forall id :: multiset(ids[..n])[id] <= multiset(ids)[id];
        assert multiset(ids[..n])[ids[n]] == 0;
        assert ids[n] !in ids[..n];
      }
    }
  }

  // How often the page is on a list.
  function Times(l: Live, id: PageId): nat {
    multiset(l.free)[id] + multiset(l.pending)[id] + multiset(l.listPage)[id]
  }

  function ListOf(l: Live, st: PageState): seq<PageId> {
    match st
    case Free => l.free
    case Pending => l.pending
    case FreeListPage => l.listPage
  }

  // A page has a mark exactly if it is on a list, and then once, on the one the mark names; every page with a mark is
  // one handed out; the root has been handed out and has none.
  ghost predicate Counted(l: Live) {
    && 1 <= l.nextPage <= l.filePages
    && (forall id :: Times(l, id) == if id in l.status then 1 else 0)
    && (forall id :: id in l.status ==> 1 <= id < l.nextPage && id in ListOf(l, l.status[id]))
    && (l.root == 0 || (l.root < l.nextPage && l.root !in l.status))
  }

  lemma AccountedMeans(l: Live)
    ensures Accounted(l) <==> Counted(l)
  {
    if Accounted(l) {
      AccountedIsCounted(l);
    }
    if Counted(l) {
      CountedIsListed(l, Free);
      CountedIsListed(l, Pending);
      CountedIsListed(l, FreeListPage);
    }
  }

  lemma AccountedIsCounted(l: Live)
    requires Accounted(l)
    ensures Counted(l)
  {
    DistinctIsOnce(l.free);
    DistinctIsOnce(l.pending);
    DistinctIsOnce(l.listPage);
    forall id: PageId
      ensures Times(l, id) == if id in l.status then 1 else 0
    {
      assert id in multiset(l.free) <==> id in l.free;
      assert id in multiset(l.pending) <==> id in l.pending;
      assert id in multiset(l.listPage) <==> id in l.listPage;
    }
  }

  lemma CountedIsListed(l: Live, st: PageState)
    requires Counted(l)
    ensures Listed(l, ListOf(l, st), st)
  {
    var ids := ListOf(l, st);
    DistinctIsOnce(ids);
    forall id
      ensures multiset(ids)[id] <= 1
    {
      assert Times(l, id) <= 1;
    }
    forall i | 0 <= i < |ids|
      ensures 1 <= ids[i] < l.nextPage && ids[i] in l.status && l.status[ids[i]] == st
    {
      assert ids[i] in multiset(ids);
      assert Times(l, ids[i]) == 1;
      assert ids[i] in ListOf(l, l.status[ids[i]]);
      assert ids[i] in multiset(ListOf(l, l.status[ids[i]]));
    }
  }

  lemma ReopenedIsAccounted(r: Recovered)
    requires MetaOk(r.meta, r.meta.filePages) && FreeSetOk(r.meta, r.entries, r.lists)
    requires Distinct(r.lists) && Within(r.lists, r.meta.nextPage)
    ensures Accounted(Reopened(r))
  {
  }

  // ---------- operations ----------

  function TakeFree(l: Live): Live
    requires l.free != []
  {
    var n := |l.free| - 1;
    l.(free := l.free[..n], status := l.status - {l.free[n]})
  }

  function TakeFresh(l: Live, filePages: u32): Live
    requires l.nextPage < MAX_PAGES
  {
    l.(nextPage := l.nextPage + 1, filePages := filePages)
  }

  function Release(l: Live, id: PageId): Live {
    l.(pending := l.pending + [id], status := l.status[id := Pending])
  }

  // A list that does not name id does not mind losing the mark of id.
  lemma ListedWithout(l: Live, ids: seq<PageId>, st: PageState, id: PageId, l': Live)
    requires Listed(l, ids, st) && id !in ids
    requires l'.status == l.status - {id} && l'.nextPage == l.nextPage
    ensures Listed(l', ids, st)
  {
  }

  lemma ListedButLast(l: Live, ids: seq<PageId>, st: PageState)
    requires Listed(l, ids, st) && ids != []
    ensures var n := |ids| - 1;
            && Listed(l, ids[..n], st) && ids[n] !in ids[..n] && ids == ids[..n] + [ids[n]]
            && ids[n] in l.status && l.status[ids[n]] == st && 1 <= ids[n] < l.nextPage
  {
  }

  lemma ListedApart(l: Live, ids: seq<PageId>, st: PageState, id: PageId)
    requires Listed(l, ids, st) && id in l.status && l.status[id] != st
    ensures id !in ids
  {
  }

  lemma TakeFreeIsAccounted(l: Live)
    requires Accounted(l) && l.free != []
    ensures var id := l.free[|l.free| - 1];
            && Accounted(TakeFree(l)) && !Owned(l, id)
            && forall x :: Owned(TakeFree(l), x) <==> Owned(l, x) || x == id
  {
    hide Listed;
    var id := l.free[|l.free| - 1];
    ListedButLast(l, l.free, Free);
    TakeFreeLists(l, TakeFree(l), id);
  }

  lemma TakeFreeLists(l: Live, l': Live, id: PageId)
    requires Accounted(l) && l' == l.(free := l'.free, status := l.status - {id})
    requires l.free == l'.free + [id] && id !in l'.free && Listed(l, l'.free, Free) && id in l.status
    requires l.status[id] == Free
    ensures Listed(l', l'.free, Free) && Listed(l', l.pending, Pending) && Listed(l', l.listPage, FreeListPage)
    ensures forall x :: x in l'.status ==> x in l'.free || x in l'.pending || x in l'.listPage
  {
    hide Listed;
    ListedApart(l, l.pending, Pending, id);
    ListedApart(l, l.listPage, FreeListPage, id);
    ListedWithout(l, l'.free, Free, id, l');
    ListedWithout(l, l.pending, Pending, id, l');
    ListedWithout(l, l.listPage, FreeListPage, id, l');
    forall x | x in l'.status
      ensures x in l'.free || x in l'.pending || x in l'.listPage
    {
      assert x in l.free ==> x in l'.free;
    }
  }

  lemma TakeFreshIsAccounted(l: Live, filePages: u32)
    requires Accounted(l) && l.nextPage < filePages && l.filePages <= filePages
    ensures Accounted(TakeFresh(l, filePages)) && !Owned(l, l.nextPage)
    ensures forall x :: Owned(TakeFresh(l, filePages), x) <==> Owned(l, x) || x == l.nextPage
  {
    var l' := TakeFresh(l, filePages);
    assert forall id :: id in l.status ==> id < l.nextPage;
  }

  // Nor one that id is marked anew.
  lemma ListedBeside(l: Live, ids: seq<PageId>, st: PageState, id: PageId, l': Live)
    requires Listed(l, ids, st) && id !in l.status
    requires l'.status == l.status[id := Pending] && l'.nextPage == l.nextPage
    ensures Listed(l', ids, st)
  {
  }

  lemma ReleaseIsAccounted(l: Live, id: PageId)
    requires Accounted(l) && Owned(l, id) && id != l.root
    ensures Accounted(Release(l, id))
    ensures forall x :: Owned(Release(l, id), x) <==> Owned(l, x) && x != id
  {
    hide Listed;
    var l' := Release(l, id);
    ListedBeside(l, l.free, Free, id, l');
    ListedBeside(l, l.pending, Pending, id, l');
    ListedBeside(l, l.listPage, FreeListPage, id, l');
    ListedLonger(l, l.pending, id, l');
    assert l'.pending == l.pending + [id];
    forall x | x in l'.status
      ensures x in l'.free || x in l'.pending || x in l'.listPage
    {
      assert x in l.pending ==> x in l'.pending;
      assert l'.pending[|l.pending|] == id;
    }
  }

  lemma ListedLonger(l: Live, ids: seq<PageId>, id: PageId, l': Live)
    requires Listed(l', ids, Pending) && Listed(l, ids, Pending) && Owned(l, id)
    requires l'.status == l.status[id := Pending] && l'.nextPage == l.nextPage
    ensures Listed(l', ids + [id], Pending)
  {
  }

  // ---------- the books and the disk ----------

  // The store has handed out, since the checkpoint it would recover, only pages that checkpoint had free or had
  // never handed out: what is reusable now is a prefix of what was free then.
  ghost predicate Linked(l: Live, s: State) {
    && s.current == s.coming
    && l.filePages <= |s.disk.cache| && l.filePages <= |s.disk.Settled()|
    && match s.current
       case Blank => l == NewStore()
       case Foreign(_) => false
       case Snap(m, entries, lists, _) =>
         && l.durable == m
         && l.listPage == lists
         && l.free <= entries
         && m.nextPage <= l.nextPage && m.filePages <= l.filePages
  }

  const NO_META: Meta := Meta(0, 0, 0, 0, 0, 0, 0, 0)

  // A store that has never been checkpointed.
  function NewStore(): Live {
    Live(NO_META, NO_PAGE, 1, CHUNK_PAGES, [], [], [], map[])
  }

  // What the platter will hold is what reads show, for every page in use. Only a page rewritten in place and then
  // lost by a failed fsync can break this.
  ghost predicate Agreed(l: Live, s: State) {
    forall id: PageId :: Owned(l, id) ==> PageAt(s.disk.Settled(), id) == PageAt(s.disk.cache, id)
  }

  // A page the current checkpoint can do without.
  ghost predicate Expendable(l: Live, s: State, id: PageId) {
    id != META_PAGE && (s.current.Snap? ==> id !in s.current.pages && id !in s.current.lists)
  }

  lemma FreeIsExpendable(l: Live, s: State, k: nat)
    requires Accounted(l) && Linked(l, s) && Inv(s) && k < |l.free|
    ensures Expendable(l, s, l.free[k])
  {
    if s.current.Snap? {
      assert l.free[k] == s.current.entries[k];
    }
  }

  lemma FreshIsExpendable(l: Live, s: State, id: PageId)
    requires Accounted(l) && Linked(l, s) && Inv(s) && l.nextPage <= id
    ensures Expendable(l, s, id)
  {
  }

  // The page write s takes to t, on a page the store may write.
  ghost predicate Wrote(s: State, w: PageWrite, t: State) {
    t == State(Write(s.disk, w), Forget(s.current, w.id), Forget(s.coming, w.id))
  }

  lemma WriteKeepsLinked(l: Live, s: State, w: PageWrite, t: State)
    requires Linked(l, s) && Wrote(s, w, t)
    ensures Linked(l, t)
    ensures |t.disk.cache| > w.id && |t.disk.Settled()| > w.id
    ensures PageAt(t.disk.cache, w.id) == PageAt(t.disk.Settled(), w.id) == w.data
    ensures forall id: PageId :: id != w.id ==>
              && PageAt(t.disk.cache, id) == PageAt(s.disk.cache, id)
              && PageAt(t.disk.Settled(), id) == PageAt(s.disk.Settled(), id)
    ensures Expendable(l, s, w.id) ==> t.current == s.current
    ensures Agreed(l, s) ==> Agreed(l, t)
  {
    WriteSettles(s.disk, w);
  }

  // The images grew at most, and the pages in use are as they were, in the cache and on their way to the platter.
  ghost predicate Undisturbed(l: Live, d: Disk, d': Disk) {
    && |d.cache| <= |d'.cache| && |d.Settled()| <= |d'.Settled()|
    && forall id: PageId :: Owned(l, id) ==>
         PageAt(d'.cache, id) == PageAt(d.cache, id) && PageAt(d'.Settled(), id) == PageAt(d.Settled(), id)
  }

  lemma UndisturbedSame(l: Live, d: Disk)
    ensures Undisturbed(l, d, d)
  {
  }
}
