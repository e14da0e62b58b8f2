// The node objects of internal/btree and the value-level tree they stand for. Nodes hold slices that operations
// rewrite in place, and leaves are chained sideways through next.
module LinkedNodes {
  import opened ByteOrder
  import opened SortedEntries
  import opened BTreeInvariant
  import M = BTreeModel

  class Node {
    var leaf: bool
    var keys: seq<Key>
    var rows: seq<RowId>
    var children: seq<Node>
    var next: Node?

    constructor OfLeaf(keys: seq<Key>, rows: seq<RowId>, next: Node?)
      ensures leaf && this.keys == keys && this.rows == rows && this.next == next
    {
      this.leaf, this.keys, this.rows, this.children, this.next := true, keys, rows, [], next;
    }

    constructor OfInner(keys: seq<Key>, children: seq<Node>)
      ensures !leaf && this.keys == keys && this.children == children
    {
      this.leaf, this.keys, this.rows, this.children, this.next := false, keys, [], children, null;
    }

    // The binary searches of sort.Search.
    method ChildIndex(key: Key) returns (i: nat)
      requires SortedKeys(keys)
      ensures i == M.ChildIndex(keys, key)
    {
      hide Less;
      i := 0;
      var j := |keys|;
      while i < j
        invariant i <= M.ChildIndex(keys, key) <= j <= |keys|
      {
        var mid := (i + j) / 2;
        ChildSide(keys, key, mid);
        if Less(key, keys[mid]) {
          j := mid;
        } else {
          i := mid + 1;
        }
      }
    }

    method LeafIndex(key: Key) returns (i: nat)
      requires SortedKeys(keys)
      ensures i == M.LeafIndex(keys, key)
    {
      hide Less;
      i := 0;
      var j := |keys|;
      while i < j
        invariant i <= M.LeafIndex(keys, key) <= j <= |keys|
      {
        var mid := (i + j) / 2;
        LeafSide(keys, key, mid);
        if Less(keys[mid], key) {
          i := mid + 1;
        } else {
          j := mid;
        }
      }
    }
  }

  // ---------- what the nodes stand for ----------

  type Shape = M.Subtree<Node>

  ghost function Ids(s: Shape): set<Node>
    decreases s, 0
  {
    match s
    case Leaf(id, _, _) => {id}
    case Node(id, _, kids) => {id} + IdsAll(kids)
  }

  ghost function IdsAll(kids: seq<Shape>): set<Node>
    decreases kids, 1
  {
    if kids == [] then {} else Ids(kids[0]) + IdsAll(kids[1..])
  }

  // The leftmost leaf.
  ghost function First(s: Shape): Node
    decreases s
  {
    match s
    case Leaf(id, _, _) => id
    case Node(id, _, kids) => if kids == [] then id else First(kids[0])
  }

  ghost function FirstOf(kids: seq<Shape>, tail: Node?): Node? {
    if kids == [] then tail else First(kids[0])
  }

  ghost function Heads(kids: seq<Shape>): (r: seq<Node>)
    ensures |r| == |kids|
    ensures forall i :: 0 <= i < |kids| ==> r[i] == kids[i].id
  {
    seq(|kids|, i requires 0 <= i < |kids| => kids[i].id)
  }

  lemma HeadsAppend(a: seq<Shape>, b: seq<Shape>)
    ensures Heads(a + b) == Heads(a) + Heads(b)
  {
  }

  // The nodes hold what the shape says, no node appears twice, and the leaves are chained in order, the last one
  // to tail.
  ghost predicate Owns(s: Shape, tail: Node?)
    reads Ids(s)
    decreases s, 0
  {
    match s
    case Leaf(id, keys, rows) => id.leaf && id.keys == keys && id.rows == rows && id.next == tail
    case Node(id, keys, kids) =>
      && !id.leaf && id.keys == keys && id.children == Heads(kids)
      && id !in IdsAll(kids) && OwnsAll(kids, tail)
  }

  ghost predicate OwnsAll(kids: seq<Shape>, tail: Node?)
    reads IdsAll(kids)
    decreases kids, 1
  {
    kids != [] ==>
      && Owns(kids[0], FirstOf(kids[1..], tail))
      && Ids(kids[0]) !! IdsAll(kids[1..])
      && OwnsAll(kids[1..], tail)
  }

  lemma {:induction false} OwnsAppend(a: seq<Shape>, b: seq<Shape>, tail: Node?)
    ensures IdsAll(a + b) == IdsAll(a) + IdsAll(b)
    ensures OwnsAll(a + b, tail) <==>
            OwnsAll(a, FirstOf(b, tail)) && OwnsAll(b, tail) && IdsAll(a) !! IdsAll(b)
  {
    hide Owns, Ids, First;
    if a == [] {
      assert a + b == b;
    } else {
      assert (a + b)[1..] == a[1..] + b;
      OwnsAppend(a[1..], b, tail);
      assert FirstOf(a[1..] + b, tail) == FirstOf(a[1..], FirstOf(b, tail));
    }
  }

  lemma OwnsOne(s: Shape, tail: Node?)
    ensures IdsAll([s]) == Ids(s)
    ensures OwnsAll([s], tail) <==> Owns(s, tail)
  {
    hide Owns, Ids, First;
    assert [s][1..] == [];
  }

  // A middle part and what is around it.
  lemma OwnsAround(a: seq<Shape>, m: seq<Shape>, b: seq<Shape>, tail: Node?)
    requires m != []
    ensures IdsAll(a + m + b) == IdsAll(a) + IdsAll(m) + IdsAll(b)
    ensures OwnsAll(a + m + b, tail) <==>
            && OwnsAll(a, FirstOf(m, null)) && OwnsAll(m, FirstOf(b, tail)) && OwnsAll(b, tail)
            && IdsAll(a) !! IdsAll(m) && IdsAll(a) !! IdsAll(b) && IdsAll(m) !! IdsAll(b)
  {
    hide Owns, Ids, First, OwnsAll, IdsAll;
    OwnsAppend(a + m, b, tail);
    OwnsAppend(a, m, FirstOf(b, tail));
  }

  lemma OwnsTop(s: Shape, tail: Node?)
    requires Owns(s, tail)
    ensures s.id.leaf == s.Leaf? && s.id.keys == s.keys
    ensures s.Leaf? ==> s.id.rows == s.rows && s.id.next == tail && First(s) == s.id
    ensures s.Node? ==> s.id.children == Heads(s.kids)
    ensures s.id in Ids(s)
  {
  }

  // The i-th child of a node and what is around it.
  lemma OwnsChild(s: Shape, i: nat, tail: Node?)
    requires s.Node? && i < |s.kids| && Owns(s, tail)
    ensures var a, k, b := s.kids[..i], s.kids[i], s.kids[i + 1..];
            && OwnsAll(a, First(k)) && Owns(k, FirstOf(b, tail)) && OwnsAll(b, tail)
            && IdsAll(a) !! Ids(k) && IdsAll(a) !! IdsAll(b) && Ids(k) !! IdsAll(b)
            && s.id !in IdsAll(a) && s.id !in Ids(k) && s.id !in IdsAll(b)
            && Ids(s) == {s.id} + IdsAll(a) + Ids(k) + IdsAll(b)
  {
    hide IdsAll, OwnsAll, First;
    var a, k, b := s.kids[..i], s.kids[i], s.kids[i + 1..];
    assert s.kids == a + [k] + b;
    OwnsAround(a, [k], b, tail);
    OwnsOne(k, FirstOf(b, tail));
  }

  // The reverse, from fields.
  lemma NodeIsOwned(s: Shape, tail: Node?)
    requires s.Node? && !s.id.leaf && s.id.keys == s.keys && s.id.children == Heads(s.kids)
    requires s.id !in IdsAll(s.kids) && OwnsAll(s.kids, tail)
    ensures Owns(s, tail) && Ids(s) == {s.id} + IdsAll(s.kids)
    ensures s.kids != [] ==> First(s) == First(s.kids[0])
  {
    hide IdsAll, OwnsAll, Heads;
  }

  // Two neighbours and what is around them.
  lemma OwnsPair(s: Shape, i: nat, tail: Node?)
    requires s.Node? && i + 1 < |s.kids| && Owns(s, tail)
    ensures var a, x, y, b := s.kids[..i], s.kids[i], s.kids[i + 1], s.kids[i + 2..];
            && OwnsAll(a, First(x)) && Owns(x, First(y)) && Owns(y, FirstOf(b, tail)) && OwnsAll(b, tail)
            && IdsAll(a) !! Ids(x) && IdsAll(a) !! Ids(y) && IdsAll(a) !! IdsAll(b)
            && Ids(x) !! Ids(y) && Ids(x) !! IdsAll(b) && Ids(y) !! IdsAll(b)
            && s.id !in IdsAll(a) + Ids(x) + Ids(y) + IdsAll(b)
            && Ids(s) == {s.id} + IdsAll(a) + Ids(x) + Ids(y) + IdsAll(b)
  {
    hide IdsAll, OwnsAll, First;
    var a, x, y, b := s.kids[..i], s.kids[i], s.kids[i + 1], s.kids[i + 2..];
    assert s.kids == a + [x, y] + b;
    OwnsAround(a, [x, y], b, tail);
    OwnsTwo(x, y, FirstOf(b, tail));
  }

  lemma OwnsTwo(x: Shape, y: Shape, tail: Node?)
    ensures IdsAll([x, y]) == Ids(x) + Ids(y)
    ensures OwnsAll([x, y], tail) <==> Owns(x, First(y)) && Owns(y, tail) && Ids(x) !! Ids(y)
  {
    hide Ids, IdsAll, Owns, OwnsAll;
    assert [x, y] == [x] + [y];
    OwnsAppend([x], [y], tail);
    OwnsOne(x, First(y));
    OwnsOne(y, tail);
  }

  lemma ChildIn(s: Shape, i: nat)
    requires s.Node? && i < |s.kids|
    ensures s.id in Ids(s) && s.kids[i].id in Ids(s) && Ids(s.kids[i]) <= Ids(s)
  {
    hide IdsAll, First, OwnsAll, Owns;
    assert s.kids == s.kids[..i] + [s.kids[i]] + s.kids[i + 1..];
    OwnsAround(s.kids[..i], [s.kids[i]], s.kids[i + 1..], null);
    OwnsOne(s.kids[i], null);
  }
}
