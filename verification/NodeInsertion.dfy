// Insertion into linked nodes, in place. Each method is proved against the value-level operation of the same name,
// with the new node objects as the ids of the new nodes.
module NodeInsertion {
  import opened ByteOrder
  import opened SortedEntries
  import opened Outcomes
  import opened BTreeInvariant
  import opened LinkedNodes
  import M = BTreeModel

  // Every node's keys are sorted, which is what binary search needs.
  ghost predicate Ordered(s: Shape) {
    SortedKeys(s.keys) && (s.Node? ==> forall i :: 0 <= i < |s.kids| ==> Ordered(s.kids[i]))
  }

  lemma {:induction false} WFIsOrdered(s: Shape, h: nat, lo: Option<Key>, hi: Option<Key>, least: int, max: nat)
    requires WF(s, h, lo, hi, least, max)
    ensures Ordered(s)
    decreases h
  {
    hide Less, AtLeast, Below, SortedKeys;
    if s.Node? {
      forall i | 0 <= i < |s.kids|
        ensures Ordered(s.kids[i])
      {
        assert KidOk(s.keys, s.kids[i], i, h - 1, lo, hi, max, -1);
        WFIsOrdered(s.kids[i], h - 1, LoOf(s.keys, lo, i), HiOf(s.keys, hi, i), max / 2, max);
      }
    }
  }

  // The one or two subtrees an insertion leaves.
  ghost function Parts(r: M.Inserted<Node>): (ts: seq<Shape>)
    ensures ts != []
  {
    match r
    case Fit(t) => [t]
    case Split(left, _, right) => [left, right]
  }

  // What insert reports to its caller is what the model's result says.
  ghost predicate Reports(r: M.Inserted<Node>, n: Node, split: bool, sep: Key, right: Node?) {
    match r
    case Fit(t) => !split && t.id == n
    case Split(left, sep', right') => split && sep == sep' && left.id == n && right == right'.id
  }

  // The parts take the place of s: same first leaf, same tail.
  ghost predicate Replaces(r: M.Inserted<Node>, s: Shape, tail: Node?)
    reads IdsAll(Parts(r))
  {
    OwnsAll(Parts(r), tail) && FirstOf(Parts(r), null) == First(s)
  }

  // Two inner nodes side by side.
  lemma HalvesAreOwned(x: Shape, y: Shape, a: seq<Shape>, b: seq<Shape>, tail: Node?)
    requires x.Node? && x.kids == a && y.Node? && y.kids == b && a != [] && b != [] && x.id != y.id
    requires OwnsAll(a, First(b[0])) && OwnsAll(b, tail) && IdsAll(a) !! IdsAll(b)
    requires x.id !in IdsAll(a) + IdsAll(b) && y.id !in IdsAll(a) + IdsAll(b)
    requires !x.id.leaf && x.id.keys == x.keys && x.id.children == Heads(a)
    requires !y.id.leaf && y.id.keys == y.keys && y.id.children == Heads(b)
    ensures OwnsAll([x, y], tail) && First(x) == First(a[0]) && First(y) == First(b[0])
    ensures IdsAll([x, y]) == {x.id, y.id} + IdsAll(a) + IdsAll(b)
  {
    hide OwnsAll, IdsAll;
    assert [x, y] == [x] + [y];
    OwnsAppend([x], [y], tail);
    OwnsOne(x, First(y));
    OwnsOne(y, tail);
  }

  method SplitLeaf(n: Node, ghost s: Shape, ghost tail: Node?)
    returns (sep: Key, right: Node, ghost r: M.Inserted<Node>)
    requires s.Leaf? && s.id == n && |s.keys| >= 2 && |s.rows| == |s.keys| && Owns(s, tail)
    modifies n
    ensures fresh(right) && r == M.SplitLeaf(s, right)
    ensures Reports(r, n, true, sep, right) && Replaces(r, s, tail)
    ensures IdsAll(Parts(r)) == Ids(s) + {right}
  {
    var mid := |n.keys| / 2;
    right := new Node.OfLeaf(n.keys[mid..], n.rows[mid..], n.next);
    n.keys := n.keys[..mid];
    n.rows := n.rows[..mid];
    n.next := right;
    sep := right.keys[0];
    r := M.SplitLeaf(s, right);
    assert Owns(r.left, right) && Owns(r.right, tail);
    OwnsOne(r.right, tail);
    assert [r.left, r.right][1..] == [r.right];
  }

  method SplitInternal(n: Node, ghost s: Shape, ghost h: nat, ghost tail: Node?)
    returns (sep: Key, right: Node, ghost r: M.Inserted<Node>)
    requires s.Node? && s.id == n && |s.keys| >= 3 && M.Shaped(s, h, 1) && Owns(s, tail)
    modifies n
    ensures fresh(right) && r == M.SplitNode(s, right, h)
    ensures Reports(r, n, true, sep, right) && Replaces(r, s, tail)
    ensures IdsAll(Parts(r)) == Ids(s) + {right}
  {
    hide Less, IdsAll, OwnsAll, Heads;
    assert |s.kids| == |s.keys| + 1;
    var mid := |n.keys| / 2;
    sep := n.keys[mid];
    assert allocated(IdsAll(s.kids));
    right := new Node.OfInner(n.keys[mid + 1..], n.children[mid + 1..]);
    ghost var a, b := s.kids[..mid + 1], s.kids[mid + 1..];
    assert s.kids == a + b;
    OwnsAppend(a, b, tail);
    HeadsAppend(a, b);
    n.keys := n.keys[..mid];
    n.children := n.children[..mid + 1];
    r := M.SplitNode(s, right, h);
    HalvesAreOwned(r.left, r.right, a, b, tail);
  }

  lemma HeadsAround(kids: seq<Shape>, i: nat, m: seq<Shape>)
    requires i < |kids|
    ensures Heads(kids[..i] + m + kids[i + 1..]) == Heads(kids)[..i] + Heads(m) + Heads(kids)[i + 1..]
  {
  }

  lemma ChosenChild(s: Shape, key: Key, h: nat)
    requires s.Node? && M.Shaped(s, h, 1) && Ordered(s)
    ensures SortedKeys(s.keys) && h > 0 && |s.kids| == |s.keys| + 1
    ensures var k := s.kids[M.ChildIndex(s.keys, key)];
            && M.Shaped(k, h - 1, 1) && Ordered(k) && M.Get(s, key, h) == M.Get(k, key, h - 1)
  {
  }

  lemma InsertStep(s: Shape, key: Key, row: RowId, max: nat, supply: seq<Node>, id: Node, h: nat)
    requires max >= 2 && s.Node? && M.Shaped(s, h, 1) && |supply| == h
    ensures var i := M.ChildIndex(s.keys, key);
            && i < |s.kids| && M.Shaped(s.kids[i], h - 1, 1)
            && M.Insert(s, key, row, max, supply + [id], h) ==
               M.Absorb(s, i, M.Insert(s.kids[i], key, row, max, supply, h - 1), max, id, h)
  {
    hide Less, M.ChildIndex, M.Absorb;
    assert (supply + [id])[..|supply|] == supply;
  }

  lemma InsertHere(s: Shape, key: Key, row: RowId, max: nat, id: Node, h: nat)
    requires max >= 2 && s.Leaf? && M.Shaped(s, h, 1) && Ordered(s)
    ensures h == 0 && |s.rows| == |s.keys| && SortedKeys(s.keys)
    ensures M.Insert(s, key, row, max, [id], h) == M.InsertLeaf(s, key, row, max, id)
    ensures M.Get(s, key, h).None? <==> !M.Holds(s.keys, M.LeafIndex(s.keys, key), key)
  {
  }

  // The node s with the parts in the place of its i-th child.
  ghost function Grown(s: Shape, i: nat, was: M.Inserted<Node>): Shape
    requires s.Node? && |s.kids| == |s.keys| + 1 && i < |s.kids|
  {
    M.Node(s.id, if was.Fit? then s.keys else M.InsertAt(s.keys, i, was.sep),
           s.kids[..i] + Parts(was) + s.kids[i + 1..])
  }

  lemma AbsorbIsGrown(s: Shape, i: nat, was: M.Inserted<Node>, max: nat, id: Node, h: nat)
    requires max >= 2 && s.Node? && M.Shaped(s, h, 1) && i < |s.kids| && M.InsertedShaped(was, h - 1)
    ensures |s.kids| == |s.keys| + 1 && M.Shaped(Grown(s, i, was), h, 1)
    ensures was.Fit? ==> M.Absorb(s, i, was, max, id, h) == M.Fit(Grown(s, i, was))
    ensures was.Split? ==>
              M.Absorb(s, i, was, max, id, h) ==
              if |s.keys| + 1 <= max then M.Fit(Grown(s, i, was)) else M.SplitNode(Grown(s, i, was), id, h)
  {
    if was.Split? {
      assert M.GrowNode(s, i, was.left, was.sep, was.right) == Grown(s, i, was);
    }
  }

  // What an insertion into the leaf n leaves behind.
  method InsertIntoLeaf(n: Node, key: Key, row: RowId, max: nat, ghost s: Shape, ghost tail: Node?)
    returns (split: bool, sep: Key, right: Node?, added: bool, ghost id: Node, ghost r: M.Inserted<Node>)
    requires max >= 2 && s.Leaf? && s.id == n && |s.rows| == |s.keys| && SortedKeys(s.keys) && Owns(s, tail)
    modifies n
    ensures r == M.InsertLeaf(s, key, row, max, id)
    ensures Reports(r, n, split, sep, right) && Replaces(r, s, tail)
    ensures fresh(IdsAll(Parts(r)) - {n})
    ensures added <==> !M.Holds(s.keys, M.LeafIndex(s.keys, key), key)
  {
    hide Less, M.LeafIndex, SortedKeys;
    split, sep, right, added, id := false, [], null, false, n;
    var i := n.LeafIndex(key);
    if i < |n.keys| && n.keys[i] == key {
      n.rows := n.rows[i := row];
      r := M.InsertLeaf(s, key, row, max, id);
      OwnsOne(r.t, tail);
      return;
    }
    n.keys := M.InsertAt(n.keys, i, key);
    n.rows := M.InsertAt(n.rows, i, row);
    added := true;
    ghost var grown := M.Leaf(n, n.keys, n.rows);
    if |n.keys| <= max {
      r := M.InsertLeaf(s, key, row, max, id);
      OwnsOne(grown, tail);
      return;
    }
    split := true;
    sep, right, r := SplitLeaf(n, grown, tail);
    id := right;
  }

  lemma GrownIsOwned(n: Node, i: nat, s: Shape, was: M.Inserted<Node>, tail: Node?)
    requires s.Node? && s.id == n && |s.kids| == |s.keys| + 1 && i < |s.kids|
    requires !n.leaf && n.keys == Grown(s, i, was).keys
    requires n.children == Heads(s.kids)[..i] + Heads(Parts(was)) + Heads(s.kids)[i + 1..]
    requires FirstOf(Parts(was), null) == First(s.kids[i])
    requires OwnsAll(Grown(s, i, was).kids, tail) && n !in IdsAll(Grown(s, i, was).kids)
    ensures Owns(Grown(s, i, was), tail) && OwnsAll([Grown(s, i, was)], tail)
    ensures First(Grown(s, i, was)) == First(s)
    ensures Ids(Grown(s, i, was)) == {n} + IdsAll(Grown(s, i, was).kids)
    ensures IdsAll([Grown(s, i, was)]) == {n} + IdsAll(Grown(s, i, was).kids)
  {
    hide OwnsAll, IdsAll;
    HeadsAround(s.kids, i, Parts(was));
    OwnsOne(Grown(s, i, was), tail);
  }

  // What becomes of the inner node n once the insertion into its i-th child has given was.
  method TakeUp(n: Node, i: nat, split: bool, sep: Key, right: Node?, max: nat, ghost s: Shape,
                ghost was: M.Inserted<Node>, ghost h: nat, ghost tail: Node?)
    returns (split': bool, sep': Key, right': Node?, ghost id: Node, ghost r: M.Inserted<Node>)
    requires max >= 2 && s.Node? && s.id == n && M.Shaped(s, h, 1) && i < |s.kids| && M.InsertedShaped(was, h - 1)
    requires !n.leaf && n.keys == s.keys && n.children == Heads(s.kids)
    requires Reports(was, s.kids[i].id, split, sep, right)
    requires FirstOf(Parts(was), null) == First(s.kids[i])
    requires OwnsAll(s.kids[..i] + Parts(was) + s.kids[i + 1..], tail)
    requires n !in IdsAll(s.kids[..i] + Parts(was) + s.kids[i + 1..])
    modifies n
    ensures r == M.Absorb(s, i, was, max, id, h)
    ensures Reports(r, n, split', sep', right') && Replaces(r, s, tail)
    ensures IdsAll(Parts(r)) == {n, id} + IdsAll(s.kids[..i] + Parts(was) + s.kids[i + 1..])
    ensures id == n || fresh(id)
  {
    hide Less, M.Shaped, M.InsertedShaped, M.Absorb, M.SplitNode, Ids, IdsAll, OwnsAll, First;
    split', sep', right', id := false, [], null, n;
    AbsorbIsGrown(s, i, was, max, n, h);
    ghost var grown := Grown(s, i, was);
    if split {
      n.keys := M.InsertAt(n.keys, i, sep);
      n.children := n.children[..i + 1] + [right] + n.children[i + 1..];
    }
    GrownIsOwned(n, i, s, was, tail);
    if !split || |n.keys| <= max {
      r := M.Fit(grown);
      return;
    }
    split' := true;
    sep', right', r := SplitInternal(n, grown, h, tail);
    id := right';
    AbsorbIsGrown(s, i, was, max, id, h);
  }

  // Puts the entry below n, which owns the shape s.
  method Insert(n: Node, key: Key, row: RowId, max: nat, ghost s: Shape, ghost h: nat, ghost tail: Node?)
    returns (split: bool, sep: Key, right: Node?, added: bool, ghost supply: seq<Node>, ghost r: M.Inserted<Node>)
    requires max >= 2 && M.Shaped(s, h, 1) && Ordered(s) && s.id == n && Owns(s, tail)
    modifies Ids(s)
    ensures |supply| == h + 1 && r == M.Insert(s, key, row, max, supply, h)
    ensures Reports(r, n, split, sep, right) && Replaces(r, s, tail)
    ensures fresh(IdsAll(Parts(r)) - Ids(s))
    ensures added <==> M.Get(s, key, h).None?
    decreases h, 1
  {
    hide *;
    OwnsTop(s, tail);
    if n.leaf {
      InsertHere(s, key, row, max, n, h);
      ghost var id;
      split, sep, right, added, id, r := InsertIntoLeaf(n, key, row, max, s, tail);
      supply := [id];
      InsertHere(s, key, row, max, id, h);
    } else {
      split, sep, right, added, supply, r := InsertBelow(n, key, row, max, s, h, tail);
    }
  }

  method InsertBelow(n: Node, key: Key, row: RowId, max: nat, ghost s: Shape, ghost h: nat, ghost tail: Node?)
    returns (split: bool, sep: Key, right: Node?, added: bool, ghost supply: seq<Node>, ghost r: M.Inserted<Node>)
    requires max >= 2 && M.Shaped(s, h, 1) && Ordered(s) && s.Node? && s.id == n && Owns(s, tail)
    modifies Ids(s)
    ensures |supply| == h + 1 && r == M.Insert(s, key, row, max, supply, h)
    ensures Reports(r, n, split, sep, right) && Replaces(r, s, tail)
    ensures fresh(IdsAll(Parts(r)) - Ids(s))
    ensures added <==> M.Get(s, key, h).None?
    decreases h, 0
  {
    hide Less, Ids, IdsAll, Owns, OwnsAll, Heads, First, SortedKeys, Ordered;
    hide M.Shaped, M.Get, M.Insert, M.InsertLeaf, M.Absorb, M.ChildIndex, M.LeafIndex;
    OwnsTop(s, tail);
    ChosenChild(s, key, h);
    assert allocated(Ids(s));
    var i := n.ChildIndex(key);
    ghost var a, k, b := s.kids[..i], s.kids[i], s.kids[i + 1..];
    OwnsChild(s, i, tail);
    assert allocated(IdsAll(a)) && allocated(IdsAll(b));
    ghost var was;
    split, sep, right, added, supply, was := Insert(n.children[i], key, row, max, k, h - 1, FirstOf(b, tail));
    OwnsAround(a, Parts(was), b, tail);
    ghost var id;
    split, sep, right, id, r := TakeUp(n, i, split, sep, right, max, s, was, h, tail);
    InsertStep(s, key, row, max, supply, id, h);
    supply := supply + [id];
  }
}
