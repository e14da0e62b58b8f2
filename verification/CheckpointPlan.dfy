// How a checkpoint sizes and lays out its free list. The pages that will carry the list are taken out of the very
// list they carry, so the loop that takes them has to reach a fixpoint; whatever it takes, the pages it writes
// spell the new list, and the new generation is well formed.
module CheckpointPlan {
  import opened Bytes
  import opened PageLayout
  import opened StoreFormat
  import opened Recovery
  import opened CommitProtocol
  import opened LiveState

  // free: what is left of the reusable pages. lists: the pages taken to carry the new free list.
  datatype Plan = Plan(free: seq<PageId>, lists: seq<PageId>, nextPage: PageId, filePages: u32)

  function PagesFor(entries: nat): nat {
    (entries + CAPACITY - 1) / CAPACITY
  }

  // The entries of the new free list: the old list pages, what is still free, what was pending.
  function NewEntries(l: Live, p: Plan): seq<PageId> {
    l.listPage + p.free + l.pending
  }

  function Count(l: Live, p: Plan): nat {
    |p.free| + |l.pending| + |l.listPage|
  }

  // The taken pages are exactly the ones missing from the tail of the free list and the ones newly handed out.
  ghost predicate PlanOk(l: Live, p: Plan) {
    && p.free <= l.free
    && l.nextPage <= p.nextPage <= p.filePages && l.filePages <= p.filePages
    && Distinct(p.lists)
    && forall id: PageId :: id in p.lists <==> TakenFrom(l, p, id)
  }

  ghost predicate TakenFrom(l: Live, p: Plan, id: PageId) {
    || l.nextPage <= id < p.nextPage
    || exists k :: |p.free| <= k < |l.free| && l.free[k] == id
  }

  function StartPlan(l: Live): Plan {
    Plan(l.free, [], l.nextPage, l.filePages)
  }

  function PopFree(p: Plan): Plan
    requires p.free != []
  {
    var n := |p.free| - 1;
    Plan(p.free[..n], p.lists + [p.free[n]], p.nextPage, p.filePages)
  }

  function HandOut(p: Plan, filePages: u32): Plan
    requires p.nextPage < MAX_PAGES
  {
    Plan(p.free, p.lists + [p.nextPage], p.nextPage + 1, filePages)
  }

  lemma StartPlanIsOk(l: Live)
    requires Accounted(l)
    ensures PlanOk(l, StartPlan(l))
  {
  }

  lemma PopFreeIsOk(l: Live, p: Plan)
    requires Accounted(l) && PlanOk(l, p) && p.free != []
    ensures PlanOk(l, PopFree(p))
  {
    var n := |p.free| - 1;
    var q := PopFree(p);
    assert l.free[n] == p.free[n];
    assert !TakenFrom(l, p, p.free[n]);
    forall id: PageId
      ensures id in q.lists <==> TakenFrom(l, q, id)
    {
      assert id in q.lists <==> id in p.lists || id == p.free[n];
      if TakenFrom(l, q, id) && !(l.nextPage <= id < p.nextPage) {
        var k :| n <= k < |l.free| && l.free[k] == id;
      }
    }
  }

  lemma HandOutIsOk(l: Live, p: Plan, filePages: u32)
    requires Accounted(l) && PlanOk(l, p)
    requires p.nextPage < filePages && p.filePages <= filePages
    ensures PlanOk(l, HandOut(p, filePages))
  {
    var q := HandOut(p, filePages);
    assert !TakenFrom(l, p, p.nextPage);
    forall id: PageId
      ensures id in q.lists <==> TakenFrom(l, q, id)
    {
      assert id in q.lists <==> id in p.lists || id == p.nextPage;
    }
  }

  // ---------- the sizing fixpoint ----------

  // Room for every entry, at most one page too many, and that only when the entries fill the other pages exactly.
  ghost predicate Fits(lists: nat, entries: nat) {
    && PagesFor(entries) <= lists <= PagesFor(entries) + 1
    && (lists == PagesFor(entries) + 1 ==> entries % CAPACITY == 0)
  }

  // Taking one more page, which shortens the list by one entry at most, never overshoots.
  lemma OneMoreFits(lists: nat, before: nat, after: nat)
    requires lists < PagesFor(before)
    requires before - 1 <= after <= before
    ensures lists + 1 <= PagesFor(after) || Fits(lists + 1, after)
  {
  }

  lemma PagesForShrinks(before: nat, after: nat)
    requires before - 1 <= after <= before
    ensures PagesFor(after) <= PagesFor(before)
  {
  }

  // The pages that are left cannot carry the list, even once every reusable one is off it.
  predicate RunsOut(l: Live) {
    PagesFor(|l.pending| + |l.listPage|) > |l.free| + (MAX_PAGES as int - l.nextPage)
  }

  predicate HasTaken(l: Live, p: Plan) {
    |p.lists| == (|l.free| - |p.free|) + (p.nextPage as int - l.nextPage)
  }

  lemma FullIsRunsOut(l: Live, p: Plan)
    requires HasTaken(l, p) && PagesFor(Count(l, p)) > |p.lists| && p.free == [] && p.nextPage == MAX_PAGES
    ensures RunsOut(l)
  {
  }

  lemma EnoughLeft(l: Live, p: Plan)
    requires PlanOk(l, p) && HasTaken(l, p) && PagesFor(Count(l, p)) <= |p.lists|
    ensures !RunsOut(l)
  {
    PagesForGrows(|l.pending| + |l.listPage|, Count(l, p));
  }

  lemma PagesForGrows(a: nat, b: nat)
    requires a <= b
    ensures PagesFor(a) <= PagesFor(b)
  {
  }

  lemma FixpointFits(lists: nat, entries: nat)
    requires PagesFor(entries) <= lists
    requires lists <= PagesFor(entries) || Fits(lists, entries)
    ensures Fits(lists, entries)
  {
  }

  // ---------- which pages carry the list ----------

  // The i-th page taken: the reusable ones from the last one freed on, then those never handed out, in order.
  function NthTaken(l: Live, i: nat): int {
    if i < |l.free| then l.free[|l.free| - 1 - i] else l.nextPage + (i - |l.free|)
  }

  // The entries there are to list once k pages have been taken.
  function Left(l: Live, k: nat): nat {
    (if k < |l.free| then |l.free| - k else 0) + |l.pending| + |l.listPage|
  }

  // Any fewer than k pages would be too few.
  predicate AllNeeded(l: Live, k: nat) {
    forall j: nat :: j < k ==> TooFew(l, j)
  }

  predicate TooFew(l: Live, k: nat) {
    PagesFor(Left(l, k)) > k
  }

  // Grown by whole chunks, and only as far as the pages handed out need.
  predicate Reaches(l: Live, nextPage: int, filePages: int) {
    if nextPage <= l.filePages then filePages == l.filePages
    else
      && nextPage <= filePages < nextPage + 16
      && ((filePages - l.filePages) % 16 == 0 || filePages == 0xFFFF_FFFF)
  }

  predicate InTurn(l: Live, p: Plan) {
    && var k := |p.lists|;
    && p.free == l.free[..if k < |l.free| then |l.free| - k else 0]
    && p.nextPage == l.nextPage + (if k > |l.free| then k - |l.free| else 0)
    && (forall i :: 0 <= i < k ==> p.lists[i] == NthTaken(l, i))
    && AllNeeded(l, k) && Reaches(l, p.nextPage, p.filePages)
  }

  lemma StartsInTurn(l: Live)
    requires l.nextPage <= l.filePages
    ensures InTurn(l, StartPlan(l))
  {
  }

  lemma PopsInTurn(l: Live, p: Plan)
    requires InTurn(l, p) && p.free != [] && PagesFor(Count(l, p)) > |p.lists|
    ensures InTurn(l, PopFree(p))
  {
    hide PagesFor;
    assert Left(l, |p.lists|) == Count(l, p);
  }

  lemma HandsOutInTurn(l: Live, p: Plan, filePages: u32)
    requires InTurn(l, p) && p.free == [] && PagesFor(Count(l, p)) > |p.lists| && p.nextPage < MAX_PAGES
    requires filePages == if p.nextPage < p.filePages then p.filePages else GrowTo(p.filePages)
    requires l.nextPage <= l.filePages && p.nextPage <= p.filePages
    ensures InTurn(l, HandOut(p, filePages))
  {
    hide PagesFor;
    assert Left(l, |p.lists|) == Count(l, p);
  }

  // What a checkpoint of the books l leaves: the fewest pages that can carry the list, reusable ones first and the one
  // freed last before the others; what is left of them behind the old list pages and before those just freed.
  predicate Carried(l: Live, l': Live) {
    && var k := |l'.listPage|;
    && PagesFor(Left(l, k)) <= k && AllNeeded(l, k)
    && (forall i :: 0 <= i < k ==> l'.listPage[i] == NthTaken(l, i))
    && l'.nextPage == l.nextPage + (if k > |l.free| then k - |l.free| else 0)
    && l'.free == l.listPage + l.free[..if k < |l.free| then |l.free| - k else 0] + l.pending && l'.pending == []
    && Reaches(l, l'.nextPage, l'.filePages)
  }

  lemma InTurnIsCarried(l: Live, p: Plan, next: Meta)
    requires InTurn(l, p) && NextMeta(l, p, next) && Fits(|p.lists|, |NewEntries(l, p)|)
    ensures Carried(l, Reopened(Recovered(next, NewEntries(l, p), p.lists)))
  {
    hide PagesFor;
    assert Left(l, |p.lists|) == |NewEntries(l, p)|;
  }

  // A page never handed out carries the list only if every reusable one does; where those suffice, neither the pages
  // handed out nor the file grows.
  lemma ReusableFirst(l: Live, l': Live)
    requires Carried(l, l')
    ensures l'.nextPage > l.nextPage ==> forall i :: 0 <= i < |l.free| ==> l.free[i] in l'.listPage
    ensures PagesFor(|l.pending| + |l.listPage|) <= |l.free| && l.nextPage <= l.filePages ==>
              l'.nextPage == l.nextPage && l'.filePages == l.filePages
  {
    hide PagesFor;
    if l'.nextPage > l.nextPage {
      forall i | 0 <= i < |l.free|
        ensures l.free[i] in l'.listPage
      {
        assert l'.listPage[|l.free| - 1 - i] == NthTaken(l, |l.free| - 1 - i) == l.free[i];
      }
    }
    if |l'.listPage| > |l.free| {
      assert TooFew(l, |l.free|);
    }
  }

  // Pages just freed are the first to be handed out again, the last one freed before the others; then those that were
  // reusable before and still are, in the order they would have been; and the old list pages at the end.
  lemma LastFreedIsFirst(l: Live, l': Live)
    requires Carried(l, l')
    ensures l.pending != [] ==> l'.free != [] && l'.free[|l'.free| - 1] == l.pending[|l.pending| - 1]
    ensures |l.pending| + |l.listPage| <= |l'.free| && l'.free[|l'.free| - |l.pending|..] == l.pending
    ensures forall i :: |l'.listPage| <= i < |l.free| ==>
              l'.free[|l'.free| - |l.pending| - 1 - (i - |l'.listPage|)] == NthTaken(l, i)
    ensures l'.free[..|l.listPage|] == l.listPage
  {
    hide PagesFor;
  }

  // How many pages a list takes: 1019 entries to a page.
  lemma PagesForMeans(entries: nat, k: nat)
    ensures PagesFor(entries) == k <==> 1019 * (k - 1) < entries <= 1019 * k
  {
  }

  lemma PlanBounds(l: Live, p: Plan)
    requires PlanOk(l, p)
    ensures l.nextPage <= p.nextPage <= p.filePages
  {
  }

  // Every slice of the entries the layout loop takes is in bounds.
  lemma ChunkStartsInBounds(lists: nat, entries: nat, i: nat)
    requires Fits(lists, entries) && i < lists
    ensures i * CAPACITY <= entries
  {
  }

  // ---------- the layout ----------

  function ChunkEnd(entries: nat, i: nat): nat {
    var hi := i * CAPACITY + CAPACITY;
    if hi > entries then entries else hi
  }

  function Chunk(entries: seq<PageId>, i: nat): (c: seq<PageId>)
    requires i * CAPACITY <= |entries|
    ensures |c| <= CAPACITY
  {
    entries[i * CAPACITY..ChunkEnd(|entries|, i)]
  }

  function NextList(lists: seq<PageId>, i: nat): PageId {
    if i + 1 < |lists| then lists[i + 1] else NO_PAGE
  }

  function ListPage(lists: seq<PageId>, entries: seq<PageId>, i: nat): Page
    requires i < |lists| && i * CAPACITY <= |entries|
  {
    EncodeList(lists[i], NextList(lists, i), Chunk(entries, i))
  }

  ghost predicate LaidOut(pages: Pages, lists: seq<PageId>, entries: seq<PageId>, i: nat)
    requires i < |lists|
  {
    i * CAPACITY <= |entries| && lists[i] in pages && pages[lists[i]] == ListPage(lists, entries, i)
  }

  function HeadOf(lists: seq<PageId>): PageId {
    if lists == [] then NO_PAGE else lists[0]
  }

  lemma ListPageSays(pages: Pages, lists: seq<PageId>, entries: seq<PageId>, i: nat)
    requires i < |lists| && LaidOut(pages, lists, entries, i)
    ensures IsListPage(pages[lists[i]], lists[i])
    ensures ListNext(pages[lists[i]]) == NextList(lists, i) && ListEntries(pages[lists[i]]) == Chunk(entries, i)
  {
    hide EncodeList, IsListPage, ListNext, ListEntries;
    ListRoundTrip(lists[i], NextList(lists, i), Chunk(entries, i));
  }

  // Where the list page i starts reading.
  function ChunkStart(entries: nat, i: nat): nat {
    if i * CAPACITY < entries then i * CAPACITY else entries
  }

  lemma CutChunk(lists: seq<PageId>, entries: seq<PageId>, i: nat)
    requires i < |lists| && i * CAPACITY <= |entries|
    ensures lists[i..] == [lists[i]] + lists[i + 1..] && HeadOf(lists[i + 1..]) == NextList(lists, i)
    ensures entries[ChunkStart(|entries|, i)..] == Chunk(entries, i) + entries[ChunkStart(|entries|, i + 1)..]
  {
  }

  // The pages from i on spell the entries from i * CAPACITY on.
  lemma {:induction false} LaidOutIsChain(pages: Pages, lists: seq<PageId>, entries: seq<PageId>, i: nat)
    requires i <= |lists| && Fits(|lists|, |entries|)
    requires forall k :: 0 <= k < |lists| ==> LaidOut(pages, lists, entries, k)
    ensures Chain(pages, HeadOf(lists[i..]), lists[i..], entries[ChunkStart(|entries|, i)..])
    decreases |lists| - i
  {
    hide EncodeList, IsListPage, ListNext, ListEntries, ListPage, Chunk;
    if i < |lists| {
      ChunkStartsInBounds(|lists|, |entries|, i);
      LaidOutIsChain(pages, lists, entries, i + 1);
      assert LaidOut(pages, lists, entries, i);
      ListPageSays(pages, lists, entries, i);
      CutChunk(lists, entries, i);
      ChainCons(pages, lists[i], lists[i + 1..], entries[ChunkStart(|entries|, i + 1)..]);
    }
  }

  // ---------- the new generation ----------

  lemma JoinDistinct(a: seq<PageId>, b: seq<PageId>)
    requires Distinct(a) && Distinct(b) && forall id :: id in a ==> id !in b
    ensures Distinct(a + b)
    ensures forall id :: id in a + b <==> id in a || id in b
  {
    forall i, j | 0 <= i < j < |a + b|
      ensures (a + b)[i] != (a + b)[j]
    {
      if i < |a| <= j {
        assert (a + b)[i] in a && (a + b)[j] in b;
      }
    }
  }

  lemma ListedOnce(l: Live, p: Plan)
    requires Accounted(l) && PlanOk(l, p)
    ensures Distinct(NewEntries(l, p))
    ensures forall id :: id in NewEntries(l, p) <==> id in l.listPage || id in p.free || id in l.pending
    ensures forall id :: id in p.free ==> id in l.free
  {
    assert forall k :: 0 <= k < |p.free| ==> p.free[k] == l.free[k];
    forall id | id in l.listPage
      ensures id !in p.free && id !in l.pending
    {
      assert l.status[id] == FreeListPage;
    }
    JoinDistinct(l.listPage, p.free);
    JoinDistinct(l.listPage + p.free, l.pending);
  }

  // The new entries are the pages out of use, less those taken to carry the list.
  lemma EntriesAreFree(l: Live, p: Plan)
    requires Accounted(l) && PlanOk(l, p)
    ensures Distinct(NewEntries(l, p))
    ensures forall id :: id in NewEntries(l, p) <==> id in l.status && id !in p.lists
  {
    ListedOnce(l, p);
    forall id | id in NewEntries(l, p)
      ensures id in l.status && id !in p.lists
    {
      if id in p.free {
        var k :| 0 <= k < |p.free| && p.free[k] == id;
        assert l.free[k] == id && !TakenFrom(l, p, id);
      }
    }
    assert forall k :: |p.free| <= k < |l.free| ==> TakenFrom(l, p, l.free[k]);
    assert forall k :: 0 <= k < |p.free| ==> l.free[k] in p.free;
  }

  lemma TakenAreSpare(l: Live, p: Plan)
    requires Accounted(l) && PlanOk(l, p)
    ensures Within(p.lists, p.nextPage)
    ensures forall id :: id in p.lists ==> !Owned(l, id)
  {
    forall i | 0 <= i < |p.lists|
      ensures 1 <= p.lists[i] < p.nextPage && !Owned(l, p.lists[i])
    {
      assert TakenFrom(l, p, p.lists[i]);
    }
  }

  ghost predicate NextMeta(l: Live, p: Plan, next: Meta) {
    && next.root == l.root
    && next.freeList == HeadOf(p.lists)
    && next.freeCount == |NewEntries(l, p)|
    && next.nextPage == p.nextPage
    && next.filePages == p.filePages
  }

  // The pages the new generation references are the pages in use and the new list pages: none leaked, none lost.
  lemma ReferencedAfter(l: Live, p: Plan, next: Meta)
    requires Accounted(l) && PlanOk(l, p) && next.nextPage == p.nextPage
    ensures forall id :: id in Referenced(next, NewEntries(l, p)) <==> Owned(l, id) || id in p.lists
  {
    EntriesAreFree(l, p);
    TakenAreSpare(l, p);
    forall id: PageId | 1 <= id < p.nextPage && id !in NewEntries(l, p) && id !in p.lists
      ensures Owned(l, id)
    {
      assert !TakenFrom(l, p, id);
    }
  }

  lemma NewGenerationIsOk(l: Live, p: Plan, next: Meta, pages: Pages)
    requires Accounted(l) && PlanOk(l, p) && NextMeta(l, p, next)
    requires Fits(|p.lists|, |NewEntries(l, p)|)
    requires forall k :: 0 <= k < |p.lists| ==> LaidOut(pages, p.lists, NewEntries(l, p), k)
    requires pages.Keys <= Referenced(next, NewEntries(l, p))
    ensures GenOk(Snap(next, NewEntries(l, p), p.lists, pages))
  {
    hide Accounted, LaidOut, NewEntries, Referenced;
    var e := NewEntries(l, p);
    NewFreeSetIsOk(l, p, next);
    LaidOutIsChain(pages, p.lists, e, 0);
    assert p.lists[0..] == p.lists && e[0..] == e;
    forall k | 0 <= k < |p.lists|
      ensures p.lists[k] in pages
    {
      LaidOutHas(pages, p.lists, e, k);
    }
  }

  lemma LaidOutHas(pages: Pages, lists: seq<PageId>, entries: seq<PageId>, k: nat)
    requires k < |lists| && LaidOut(pages, lists, entries, k)
    ensures lists[k] in pages
  {
  }

  lemma NewFreeSetIsOk(l: Live, p: Plan, next: Meta)
    requires Accounted(l) && PlanOk(l, p) && NextMeta(l, p, next)
    ensures FreeSetOk(next, NewEntries(l, p), p.lists) && MetaOk(next, next.filePages)
    ensures Distinct(p.lists) && Within(p.lists, next.nextPage)
  {
    hide NewEntries;
    EntriesAreFree(l, p);
    TakenAreSpare(l, p);
    var e := NewEntries(l, p);
    assert forall i :: 0 <= i < |e| ==> e[i] in e && e[i] in l.status;
    assert l.root != NO_PAGE ==> l.root !in p.lists;
  }

  // What a checkpoint leaves behind is what opening it would bring back, and it has the same pages in use.
  lemma CheckpointKeepsPages(l: Live, p: Plan, next: Meta)
    requires Accounted(l) && PlanOk(l, p) && NextMeta(l, p, next)
    ensures var l' := Reopened(Recovered(next, NewEntries(l, p), p.lists));
            && Accounted(l')
            && forall id :: Owned(l', id) <==> Owned(l, id)
  {
    var e := NewEntries(l, p);
    EntriesAreFree(l, p);
    TakenAreSpare(l, p);
    assert FreeSetOk(next, e, p.lists);
    ReopenedIsAccounted(Recovered(next, e, p.lists));
    forall id: PageId | 1 <= id < p.nextPage && id !in e && id !in p.lists
      ensures Owned(l, id)
    {
      assert !TakenFrom(l, p, id);
    }
  }
}
