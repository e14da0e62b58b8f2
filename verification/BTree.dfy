// The B+Tree of internal/btree: a tree of node objects that is, at every order, a finite map from byte strings to
// row ids.
module BTree {
  import opened ByteOrder
  import opened SortedEntries
  import opened Outcomes
  import opened BTreeInvariant
  import opened BTreeContents
  import opened BTreeMap
  import opened LinkedNodes
  import opened LeafChain
  import opened NodeInsertion
  import opened NodeDeletion
  import opened RangeScan
  import opened TreeCheck
  import opened Descent
  import M = BTreeModel

  const MIN_ORDER := 3
  const DEFAULT_ORDER := 64

  // The root owns a well-formed shape, h levels above its leaves.
  ghost predicate Rooted(s: Shape, h: nat, max: nat)
    reads Ids(s)
  {
    max >= 2 && Owns(s, null) && WholeTree(s, h, max) && M.Shaped(s, h, 1) && Ordered(s)
  }

  lemma WholeIsRooted(s: Shape, h: nat, max: nat)
    requires max >= 2 && Owns(s, null) && WholeTree(s, h, max)
    ensures Rooted(s, h, max)
  {
    WholeIsShaped(s, h, max);
    WFIsOrdered(s, h, None, None, if s.Leaf? then 0 else 1, max);
  }

  class Tree {
    var root: Node?
    var order: nat
    var maxKeys: nat
    var minKeys: nat
    var count: nat
    ghost var shape: Option<Shape>
    ghost var height: nat

    ghost function Nodes(): set<Node>
      reads this
    {
      if shape.Some? then Ids(shape.value) else {}
    }

    ghost predicate Valid()
      reads this, Nodes()
    {
      && (order == 0 || (order >= MIN_ORDER && maxKeys == order - 1 && minKeys == maxKeys / 2))
      && match shape
         case None => root == null && count == 0
         case Some(s) =>
           order > 0 && root == s.id && Rooted(s, height, maxKeys) && count == |M.Flat(s)|
    }

    // The map it stands for.
    ghost function Map(): map<Key, RowId>
      reads this
    {
      if shape.Some? then Contents(shape.value) else map[]
    }

    // How many levels it has.
    ghost function Levels(): nat
      reads this
    {
      if shape.Some? then height + 1 else 0
    }

    // The zero value.
    constructor Zero()
      ensures Valid() && Map() == map[] && Levels() == 0 && order == 0
    {
      root, order, maxKeys, minKeys, count := null, 0, 0, 0, 0;
      shape, height := None, 0;
    }

    constructor Empty(order: nat)
      requires order >= MIN_ORDER
      ensures Valid() && Map() == map[] && Levels() == 1 && this.order == order && fresh(Nodes())
    {
      var leaf := new Node.OfLeaf([], [], null);
      root, this.order, maxKeys, minKeys, count := leaf, order, order - 1, (order - 1) / 2, 0;
      shape, height := Some(M.Leaf(leaf, [], [])), 0;
    }

    static method New(order: int) returns (t: Option<Tree>)
      ensures t.None? <==> order < MIN_ORDER
      ensures t.Some? ==> fresh(t.value) && fresh(t.value.Nodes())
      ensures t.Some? ==> t.value.Valid() && t.value.Map() == map[] && t.value.order == order
    {
      if order < MIN_ORDER {
        return None;
      }
      var tree := new Tree.Empty(order);
      return Some(tree);
    }

    method Ensure()
      requires Valid()
      modifies this
      ensures Valid() && root != null && shape.Some? && fresh(Nodes() - old(Nodes()))
      ensures Map() == old(Map()) && Levels() <= old(Levels()) + 1
      ensures order == if old(order) == 0 then DEFAULT_ORDER else old(order)
      ensures old(shape).Some? ==> shape == old(shape) && Levels() == old(Levels())
      ensures old(shape).None? ==> Levels() == 1 && shape.value.keys == []
    {
      hide Rooted;
      if order == 0 {
        order := DEFAULT_ORDER;
        maxKeys := DEFAULT_ORDER - 1;
        minKeys := (DEFAULT_ORDER - 1) / 2;
      }
      if root == null {
        var leaf := new Node.OfLeaf([], [], null);
        root := leaf;
        shape, height := Some(M.Leaf(leaf, [], [])), 0;
        EmptyIsRooted(leaf, maxKeys);
      }
    }

    function Order(): nat
      reads this
    {
      if order == 0 then DEFAULT_ORDER else order
    }

    method Len() returns (n: nat)
      requires Valid()
      ensures n == |Map()|
    {
      if shape.Some? {
        WholeIsSorted(shape.value, height, maxKeys);
      }
      return count;
    }

    // The height is logarithmic in the number of entries.
    method Height() returns (n: nat)
      requires Valid()
      ensures n == Levels()
      ensures n >= 1 ==> |Map()| <= maxKeys * Pow(maxKeys + 1, n - 1)
      ensures n >= 2 ==> 2 * (minKeys * Pow(minKeys + 1, n - 2)) <= |Map()|
    {
      if root == null {
        return 0;
      }
      WholeIsSorted(shape.value, height, maxKeys);
      WholeCount(shape.value, height, maxKeys);
      n := CountLevels(root, shape.value, height, maxKeys);
    }

    method Get(key: Key) returns (r: Option<RowId>)
      requires Valid()
      ensures r == if key in Map() then Some(Map()[key]) else None
    {
      if root == null {
        return None;
      }
      GetIsLookup(shape.value, key, height, maxKeys);
      r := Lookup(root, key, shape.value, height, maxKeys);
    }

    method Put(key: Key, row: RowId)
      requires Valid()
      modifies this, Nodes()
      ensures Valid() && Map() == old(Map())[key := row]
      ensures Order() == old(Order()) && fresh(Nodes() - old(Nodes()))
      ensures old(Levels()) <= Levels() <= old(Levels()) + 1
    {
      hide Less, Rooted, Contents, M.Flat, Ids;
      ghost var before := Nodes();
      Ensure();
      ghost var s := shape.value;
      assert fresh(Ids(s) - before);
      var added;
      ghost var t, h;
      label Ready:
      root, added, t, h := PutBelow(root, key, row, maxKeys, s, height);
      assert forall m | m in Ids(t) && m !in Ids(s) :: fresh@Ready(m);
      assert forall m | m in Ids(t) && m !in Ids(s) :: fresh(m);
      if added {
        count := count + 1;
      }
      shape, height := Some(t), h;
    }

    method Delete(key: Key) returns (found: bool)
      requires Valid()
      modifies this, Nodes()
      ensures Valid() && Map() == old(Map()) - {key}
      ensures found <==> key in old(Map())
      ensures Order() == old(Order()) && Nodes() <= old(Nodes())
      ensures Levels() <= old(Levels()) <= Levels() + 1
    {
      hide Less, Rooted, Contents, M.Flat, Ids;
      if root == null {
        return false;
      }
      ghost var t, h;
      root, found, t, h := DeleteBelowRoot(root, key, maxKeys, minKeys, shape.value, height);
      if found {
        count := count - 1;
      }
      shape, height := Some(t), h;
    }

    // Every tree the operations can build passes.
    method Validate() returns (ok: bool)
      requires Valid()
      ensures ok
    {
      hide Less, Owns, WholeTree, M.Shaped, Ordered, Built, Unfolds, Filled, Leaves, Chained, Ids, DownClosed;
      if root == null {
        return true;
      }
      ghost var s := shape.value;
      ShapedIsFilled(s, height, 1);
      OwnedIsChained(s, null);
      BuiltUnfolds(s);
      UnfoldsIsClosed(s);
      assert allocated(Ids(s));
      ok := TreeCheck.Validate(root, maxKeys, minKeys, Ids(s));
      assert WholeTree(s, height, maxKeys) && Owns(s, null);
    }

    method Scan(from: Key, to: Option<Key>) returns (it: Iterator)
      requires Valid()
      ensures fresh(it) && it.Valid()
      ensures it.Pending() == if shape.Some? then Between(M.Flat(shape.value), from, to) else []
    {
      if root == null {
        it := new Iterator(null, 0, None, true, []);
        return;
      }
      it := StartScan(root, from, to, shape.value, height, maxKeys);
    }
  }

  lemma PutOutcome(s: Shape, key: Key, row: RowId, max: nat, supply: seq<Node>, h: nat)
    requires max >= 2 && WholeTree(s, h, max) && M.Shaped(s, h, 1) && |supply| > h + 1
    ensures var t := PutRoot(s, key, row, max, supply, h);
            && WholeTree(t, PutHeight(s, key, row, max, supply, h), max)
            && Contents(t) == Contents(s)[key := row]
            && |M.Flat(t)| == |M.Flat(s)| + if M.Get(s, key, h).None? then 1 else 0
  {
    hide Less, WholeTree, PutRoot, PutHeight, M.Get, M.Flat, PutEntry, Find;
    PutKeepsWhole(s, key, row, max, supply, h);
    PutIsUpdate(s, key, row, max, supply, h);
    PutRootFlat(s, key, row, max, supply, h);
    WholeIsSorted(s, h, max);
    PutLength(M.Flat(s), key, row);
    GetIsFind(s, key, h, max);
  }

  lemma OnlyFullSplits(s: Shape, key: Key, row: RowId, max: nat, supply: seq<Node>, h: nat)
    requires max >= 2 && WholeTree(s, h, max) && M.Shaped(s, h, 1) && |supply| > h
    ensures M.Insert(s, key, row, max, supply, h).Split? ==> |s.keys| == max
  {
    hide Less, KidsOk, SortedKeys, KeysIn;
  }

  lemma GetIsFind(s: Shape, key: Key, h: nat, max: nat)
    requires max >= 2 && WholeTree(s, h, max) && M.Shaped(s, h, 1)
    ensures M.Get(s, key, h) == Find(M.Flat(s), key)
  {
    GetFinds(s, key, h, None, None, if s.Leaf? then 0 else 1, max);
  }

  // Puts the entry into the tree under root; a root that splits gets a new one above it.
  method PutBelow(root: Node, key: Key, row: RowId, max: nat, ghost s: Shape, ghost h: nat)
    returns (root': Node, added: bool, ghost t: Shape, ghost h': nat)
    requires s.id == root && Rooted(s, h, max)
    modifies Ids(s)
    ensures t.id == root' && Rooted(t, h', max) && fresh(Ids(t) - Ids(s))
    ensures Contents(t) == Contents(s)[key := row] && h <= h' <= h + 1 && (h' > h ==> |s.keys| == max)
    ensures |M.Flat(t)| == |M.Flat(s)| + if added then 1 else 0
  {
    hide Less, Owns, OwnsAll, IdsAll, WholeTree, M.Shaped, Ordered, Contents, M.Flat, M.Get, M.Insert;
    var sep, right, split;
    ghost var supply, r;
    split, sep, right, added, supply, r := Insert(root, key, row, max, s, h, null);
    root' := root;
    if split {
      assert allocated(IdsAll(Parts(r)));
      root' := new Node.OfInner([sep], [root, right]);
    }
    ghost var supply' := supply + [root'];
    assert supply'[..|supply|] == supply;
    t, h' := PutRoot(s, key, row, max, supply', h), PutHeight(s, key, row, max, supply', h);
    PutOutcome(s, key, row, max, supply', h);
    OnlyFullSplits(s, key, row, max, supply, h);
    if split {
      NodeIsOwned(t, null);
    } else {
      OwnsOne(t, null);
    }
    WholeIsRooted(t, h', max);
  }

  lemma DeleteOutcome(s: Shape, key: Key, max: nat, h: nat)
    requires max >= 2 && WholeTree(s, h, max) && M.Shaped(s, h, 1)
    ensures var r := DeleteRoot(s, key, max / 2, h);
            && (r.Some? <==> key in Contents(s))
            && (r.Some? ==>
                 && WholeTree(r.value, DeleteHeight(s, key, max / 2, h), max)
                 && Contents(r.value) == Contents(s) - {key}
                 && |M.Flat(s)| == |M.Flat(r.value)| + 1)
  {
    hide Less, WholeTree, DeleteRoot, DeleteHeight, M.Get, M.Flat, RemoveEntry, Find;
    DeleteKeepsWhole(s, key, max, h);
    DeleteIsRemoval(s, key, max, h);
    DeleteRootFlat(s, key, max, h);
    RemoveLength(M.Flat(s), key);
  }

  // After one collapse there is nothing left to collapse.
  lemma CollapseOnce(s: Shape, key: Key, max: nat, h: nat)
    requires max >= 2 && WholeTree(s, h, max) && M.Shaped(s, h, 1) && M.Delete(s, key, max / 2, h).Some?
    ensures var t, goal := M.Delete(s, key, max / 2, h).value, DeleteRoot(s, key, max / 2, h).value;
            && (goal.Leaf? || |goal.keys| > 0)
            && (if t.Node? && |t.keys| == 0 then |t.kids| == 1 && goal == t.kids[0] else goal == t)
  {
    hide Less, KidsOk, SortedKeys, KeysIn;
    DeleteKeepsWhole(s, key, max, h);
  }

  // Removes the key from the tree under root. The loop that replaces a root without keys by its only child runs at
  // most once.
  method DeleteBelowRoot(root: Node, key: Key, max: nat, min: nat, ghost s: Shape, ghost h: nat)
    returns (root': Node, found: bool, ghost t: Shape, ghost h': nat)
    requires s.id == root && Rooted(s, h, max) && min == max / 2
    modifies Ids(s)
    ensures t.id == root' && Rooted(t, h', max) && Ids(t) <= Ids(s)
    ensures found <==> key in Contents(s)
    ensures Contents(t) == Contents(s) - {key} && h' <= h <= h' + 1
    ensures |M.Flat(s)| == |M.Flat(t)| + if found then 1 else 0
  {
    hide Less, Owns, OwnsAll, IdsAll, WholeTree, M.Shaped, Ordered, Contents, M.Flat, M.Delete, First;
    DeleteOutcome(s, key, max, h);
    root', t, h' := root, s, h;
    found := Delete(root, key, min, s, h, null);
    if !found {
      return;
    }
    t := M.Delete(s, key, min, h).value;
    CollapseOnce(s, key, max, h);
    OwnsTop(t, null);
    ghost var collapses := 0;
    while !root'.leaf && |root'.keys| == 0
      invariant t.id == root' && Owns(t, null) && root'.leaf == t.Leaf? && root'.keys == t.keys && Ids(t) <= Ids(s)
      invariant collapses == 0 || collapses == 1
      invariant t == if collapses == 0 then M.Delete(s, key, min, h).value else DeleteRoot(s, key, min, h).value
      decreases 1 - collapses
    {
      OwnsTop(t, null);
      ChildIn(t, 0);
      OwnsChild(t, 0, null);
      root' := root'.children[0];
      t := t.kids[0];
      OwnsTop(t, null);
      collapses := collapses + 1;
    }
    h' := DeleteHeight(s, key, min, h);
    WholeIsRooted(t, h', max);
  }

  method CountLevels(root: Node, ghost s: Shape, ghost h: nat, ghost max: nat) returns (n: nat)
    requires s.id == root && Rooted(s, h, max)
    ensures n == h + 1
  {
    hide Ids, Owns;
    OwnsTop(s, null);
    n := 1;
    var at := root;
    ghost var cur, tail: Node? := s, null;
    while !at.leaf
      invariant cur.id == at && Owns(cur, tail) && at.leaf == cur.Leaf? && n <= h + 1 && M.Shaped(cur, h + 1 - n, 1)
      decreases cur
    {
      OwnsTop(cur, tail);
      OwnsChild(cur, 0, tail);
      tail := FirstOf(cur.kids[1..], tail);
      at := at.children[0];
      n := n + 1;
      cur := cur.kids[0];
      OwnsTop(cur, tail);
    }
  }

  method Lookup(root: Node, key: Key, ghost s: Shape, ghost h: nat, ghost max: nat) returns (r: Option<RowId>)
    requires s.id == root && Rooted(s, h, max)
    ensures r == M.Get(s, key, h)
  {
    hide Less, Ids, IdsAll, Owns, OwnsAll, M.Flat, M.FlatAll, WholeTree, Ordered, Flanked, SortedKeys, KeysIn;
    hide AllLeaves;
    var leaf;
    ghost var p;
    leaf, p := Descend(root, key, s, h, max);
    OwnsTop(p.sub, FirstOf(p.after, null));
    WFKeysIn(p.sub, p.h, p.lo, p.hi, p.least, max);
    assert allocated(Ids(p.sub));
    var i := leaf.LeafIndex(key);
    if i < |leaf.keys| && leaf.keys[i] == key {
      return Some(leaf.rows[i]);
    }
    return None;
  }

  method StartScan(root: Node, from: Key, to: Option<Key>, ghost s: Shape, ghost h: nat, ghost max: nat)
    returns (it: Iterator)
    requires s.id == root && Rooted(s, h, max)
    ensures fresh(it) && it.Valid() && it.Pending() == Between(M.Flat(s), from, to)
  {
    hide Less, Ids, Owns, M.Flat, M.FlatAll, OwnsAll, WholeTree, Ordered, Flanked, SortedKeys, KeysIn, IdsAll, UpTo;
    var leaf;
    ghost var p;
    WholeIsSorted(s, h, max);
    leaf, p := Descend(root, from, s, h, max);
    ghost var rest := [p.sub] + p.after;
    OwnsTop(p.sub, FirstOf(p.after, null));
    WFKeysIn(p.sub, p.h, p.lo, p.hi, p.least, max);
    OwnsOne(p.sub, FirstOf(p.after, null));
    OwnsAppend([p.sub], p.after, null);
    assert allocated(IdsAll(rest));
    var i := leaf.LeafIndex(from);
    ScanStart(p, M.Flat(s), from, to, max);
    it := new Iterator(leaf, i, to, false, rest);
  }

  lemma EmptyIsRooted(leaf: Node, max: nat)
    requires max >= 2 && leaf.leaf && leaf.keys == [] && leaf.rows == [] && leaf.next == null
    ensures Rooted(M.Leaf(leaf, [], []), 0, max) && M.Flat(M.Leaf(leaf, [], [])) == []
  {
  }
}
