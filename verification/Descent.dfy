// The way down to the leaf where a key belongs, and what lies to the left and the right of it.
module Descent {
  import opened ByteOrder
  import opened SortedEntries
  import opened Outcomes
  import opened BTreeInvariant
  import opened BTreeContents
  import opened LinkedNodes
  import opened LeafChain
  import opened RangeScan
  import M = BTreeModel

  // A subtree on the way down: the entries before it are below the key, those of the leaves after it above.
  datatype Place = Place(sub: Shape, h: nat, lo: Option<Key>, hi: Option<Key>, least: nat, before: seq<Entry>,
                         after: seq<Shape>)

  ghost predicate Leads(p: Place, s: Shape, h: nat, key: Key, max: nat)
    requires M.Shaped(s, h, 1)
    reads Ids(p.sub), IdsAll(p.after)
  {
    && WF(p.sub, p.h, p.lo, p.hi, p.least, max) && M.Shaped(p.sub, p.h, 1)
    && Owns(p.sub, FirstOf(p.after, null)) && OwnsAll(p.after, null) && Ids(p.sub) !! IdsAll(p.after)
    && AllLeaves(p.after)
    && Flanked(p, M.Flat(s), key)
    && M.Get(s, key, h) == M.Get(p.sub, key, p.h)
  }

  ghost predicate Flanked(p: Place, es: seq<Entry>, key: Key) {
    && es == p.before + M.Flat(p.sub) + M.FlatAll(p.after)
    && AllBelow(p.before, key) && AllAbove(M.FlatAll(p.after), key)
  }

  ghost function Down(p: Place, key: Key, max: nat): Place
    requires p.sub.Node? && p.h > 0 && |p.sub.kids| == |p.sub.keys| + 1
  {
    var i := M.ChildIndex(p.sub.keys, key);
    Place(p.sub.kids[i], p.h - 1, LoOf(p.sub.keys, p.lo, i), HiOf(p.sub.keys, p.hi, i), max / 2,
          p.before + M.FlatAll(p.sub.kids[..i]), LeavesAll(p.sub.kids[i + 1..]) + p.after)
  }

  lemma StepDown(p: Place, s: Shape, h: nat, key: Key, max: nat)
    requires max >= 2 && M.Shaped(s, h, 1) && Leads(p, s, h, key, max) && p.sub.Node?
    ensures p.h > 0 && |p.sub.kids| == |p.sub.keys| + 1 && Leads(Down(p, key, max), s, h, key, max)
    ensures SortedKeys(p.sub.keys) && p.sub.id.keys == p.sub.keys && p.sub.id.children == Heads(p.sub.kids)
  {
    hide Less, WF, M.Shaped, M.Get, M.Flat, M.FlatAll, SortedKeys, Flanked, AllLeaves, FilledAll, LeavesAll;
    hide Owns, OwnsAll, Ids, IdsAll, First, M.ChildIndex, Heads, LoOf, HiOf;
    StepKeeps(p, M.Flat(s), key, max);
    OwnsTop(p.sub, FirstOf(p.after, null));
    ChildIsOwned(p.sub, M.ChildIndex(p.sub.keys, key), p.after);
  }

  lemma ChildIsOwned(s: Shape, i: nat, after: seq<Shape>)
    requires s.Node? && i < |s.kids| && FilledAll(s.kids[i + 1..])
    requires Owns(s, FirstOf(after, null)) && OwnsAll(after, null) && Ids(s) !! IdsAll(after)
    ensures var after' := LeavesAll(s.kids[i + 1..]) + after;
            && Owns(s.kids[i], FirstOf(after', null)) && OwnsAll(after', null) && Ids(s.kids[i]) !! IdsAll(after')
  {
    hide Owns, OwnsAll, Ids, IdsAll, LeavesAll, First;
    OwnsChild(s, i, FirstOf(after, null));
    AfterIsOwned(s.kids[i + 1..], after);
  }

  // The leaves of what is to the right of the child join those that were to the right before.
  lemma AfterIsOwned(b: seq<Shape>, after: seq<Shape>)
    requires OwnsAll(b, FirstOf(after, null)) && OwnsAll(after, null) && FilledAll(b) && IdsAll(b) !! IdsAll(after)
    ensures OwnsAll(LeavesAll(b) + after, null)
    ensures IdsAll(LeavesAll(b) + after) <= IdsAll(b) + IdsAll(after)
    ensures FirstOf(LeavesAll(b) + after, null) == FirstOf(b, FirstOf(after, null))
  {
    hide Owns, OwnsAll, Ids, IdsAll, LeavesAll, First;
    LeavesAllAreOwned(b, FirstOf(after, null));
    LeafFirst(b);
    FirstLeafOf(b);
    OwnsAppend(LeavesAll(b), after, null);
  }

  lemma StepKeeps(p: Place, es: seq<Entry>, key: Key, max: nat)
    requires max >= 2 && WF(p.sub, p.h, p.lo, p.hi, p.least, max) && M.Shaped(p.sub, p.h, 1) && p.sub.Node?
    requires Flanked(p, es, key) && AllLeaves(p.after)
    ensures p.h > 0 && |p.sub.kids| == |p.sub.keys| + 1
    ensures var q := Down(p, key, max);
            && WF(q.sub, q.h, q.lo, q.hi, q.least, max) && M.Shaped(q.sub, q.h, 1) && Flanked(q, es, key)
            && AllLeaves(q.after) && FilledAll(p.sub.kids[M.ChildIndex(p.sub.keys, key) + 1..])
            && M.Get(p.sub, key, p.h) == M.Get(q.sub, key, q.h)
    ensures SortedKeys(p.sub.keys)
  {
    hide Less, SortedKeys, KeysIn, M.ChildIndex, M.FlatAll, AllLeaves, FilledAll, LeavesAll, AllBelow, AllAbove;
    var kids := p.sub.kids;
    var i := M.ChildIndex(p.sub.keys, key);
    var a, b := M.FlatAll(kids[..i]), M.FlatAll(kids[i + 1..]);
    WFKeysIn(p.sub, p.h, p.lo, p.hi, p.least, max);
    KidIsOk(p.sub.keys, kids, i, p.h - 1, p.lo, p.hi, max);
    AroundChild(p.sub.keys, kids, key, p.h - 1, p.lo, p.hi, max);
    FlatSplit(kids, i);
    ShapedAllIsFilled(kids[i + 1..], p.h - 1);
    ShapedLeaves(kids[i + 1..], p.h - 1);
    LeavesAllHoldAll(kids[i + 1..]);
    M.FlatAppend(LeavesAll(kids[i + 1..]), p.after);
    JoinLeaves(LeavesAll(kids[i + 1..]), p.after);
    JoinSides(p.before, a, b, M.FlatAll(p.after), key);
    Regroup(p.before, a, M.Flat(kids[i]), b, M.FlatAll(p.after));
  }

  lemma Regroup<T>(a: seq<T>, b: seq<T>, c: seq<T>, d: seq<T>, e: seq<T>)
    ensures a + (b + c + d) + e == (a + b) + c + (d + e)
  {
  }

  lemma JoinLeaves(a: seq<Shape>, b: seq<Shape>)
    requires AllLeaves(a) && AllLeaves(b)
    ensures AllLeaves(a + b)
  {
  }

  lemma JoinSides(before: seq<Entry>, a: seq<Entry>, b: seq<Entry>, after: seq<Entry>, key: Key)
    requires AllBelow(before, key) && AllBelow(a, key) && AllAbove(b, key) && AllAbove(after, key)
    ensures AllBelow(before + a, key) && AllAbove(b + after, key)
  {
    hide Less;
  }

  lemma {:induction false} ShapedLeaves(kids: seq<Shape>, h: nat)
    requires forall i :: 0 <= i < |kids| ==> M.Shaped(kids[i], h, 1)
    ensures AllLeaves(LeavesAll(kids))
    decreases h, |kids|
  {
    if kids != [] {
      var k := kids[0];
      if k.Node? {
        ShapedLeaves(k.kids, h - 1);
      }
      ShapedLeaves(kids[1..], h);
      JoinLeaves(Leaves(k), LeavesAll(kids[1..]));
    }
  }

  // The loop of Get and Scan.
  method Descend(root: Node, key: Key, ghost s: Shape, ghost h: nat, ghost max: nat)
    returns (n: Node, ghost p: Place)
    requires max >= 2 && s.id == root && Owns(s, null) && WholeTree(s, h, max) && M.Shaped(s, h, 1)
    ensures Leads(p, s, h, key, max) && p.sub.Leaf? && p.sub.id == n
  {
    hide Less, WF, M.Shaped, Owns, Ids, IdsAll, M.Get, M.Flat, Flanked, OwnsAll, AllLeaves;
    n := root;
    p := Place(s, h, None, None, if s.Leaf? then 0 else 1, [], []);
    StartsAtTop(p, s, h, key, max);
    OwnsTop(s, null);
    while !n.leaf
      invariant Leads(p, s, h, key, max) && p.sub.id == n && n.leaf == p.sub.Leaf?
      decreases p.sub
    {
      StepDown(p, s, h, key, max);
      assert allocated(Ids(Down(p, key, max).sub)) && allocated(IdsAll(Down(p, key, max).after));
      var i := n.ChildIndex(key);
      n := n.children[i];
      p := Down(p, key, max);
      OwnsTop(p.sub, FirstOf(p.after, null));
    }
  }

  lemma StartsAtTop(p: Place, s: Shape, h: nat, key: Key, max: nat)
    requires max >= 2 && Owns(s, null) && WholeTree(s, h, max) && M.Shaped(s, h, 1)
    requires p == Place(s, h, None, None, if s.Leaf? then 0 else 1, [], [])
    ensures Leads(p, s, h, key, max)
  {
    assert [] + M.Flat(s) + M.FlatAll<Node>([]) == M.Flat(s);
  }

  // Where the scan starts, everything to the left is below from.
  lemma ScanStart(p: Place, es: seq<Entry>, from: Key, to: Option<Key>, max: nat)
    requires Sorted(es) && Flanked(p, es, from) && p.sub.Leaf? && |p.sub.rows| == |p.sub.keys| && SortedKeys(p.sub.keys)
    ensures var i := M.LeafIndex(p.sub.keys, from);
            && i <= |M.FlatAll([p.sub] + p.after)|
            && UpTo(M.FlatAll([p.sub] + p.after)[i..], to) == Between(es, from, to)
  {
    hide Less, M.LeafIndex, UpTo, Between;
    var keys, rows := p.sub.keys, p.sub.rows;
    var i := M.LeafIndex(keys, from);
    var j := |p.before| + i;
    var ahead := M.FlatAll([p.sub] + p.after);
    M.FlatAppend([p.sub], p.after);
    FlatOne(p.sub);
    assert ahead == M.Zip(keys, rows) + M.FlatAll(p.after);
    assert es == p.before + ahead;
    assert es[j..] == ahead[i..];
    forall k | 0 <= k < j
      ensures Less(es[k].key, from)
    {
      if k >= |p.before| {
        assert es[k].key == keys[k - |p.before|];
      }
    }
    if j < |es| {
      if i < |keys| {
        assert es[j].key == keys[i];
      } else {
        assert es[j] == M.FlatAll(p.after)[0];
        NotBelow(from, es[j].key);
      }
    }
    UpToIsBetween(es, j, from, to);
  }
}
