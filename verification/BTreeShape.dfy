// Where insertion and deletion change the shape of the tree, and where they do not: a node splits exactly when it has
// to, in the middle; a node left short borrows from the left if it can, else from the right, else is merged, and
// nothing else moves.
module BTreeShape {
  import opened ByteOrder
  import opened SortedEntries
  import opened Outcomes
  import opened BTreeModel
  import opened BTreeInvariant

  // ---------- splitting ----------

  // Nothing is lost or moved by a split: the left half is half of it, rounded down. A leaf's separator is a copy of
  // the right half's first key, an inner node's is taken out of the middle.
  lemma LeafHalves<I>(t: Subtree<I>, id: I)
    requires t.Leaf? && |t.keys| >= 2 && |t.rows| == |t.keys|
    ensures var r := SplitLeaf(t, id);
            && r.left.keys + r.right.keys == t.keys && r.left.rows + r.right.rows == t.rows
            && |r.left.rows| == |r.left.keys| == |t.keys| / 2 && r.right.keys[..1] == [r.sep]
            && r.left.id == t.id && r.right.id == id
  {
  }

  lemma NodeHalves<I>(t: Subtree<I>, id: I, h: nat)
    requires t.Node? && |t.keys| >= 3 && |t.kids| == |t.keys| + 1 && Shaped(t, h, 1)
    ensures var r := SplitNode(t, id, h);
            && r.left.Node? && r.right.Node? && r.left.id == t.id && r.right.id == id
            && r.left.keys + [r.sep] + r.right.keys == t.keys && |r.left.keys| == |t.keys| / 2
            && r.left.kids + r.right.kids == t.kids && |r.left.kids| == |t.keys| / 2 + 1
  {
    hide Shaped;
    var mid := |t.keys| / 2;
    AroundOne(t.keys, mid);
    Halves(t.kids, mid + 1);
  }

  lemma AroundOne<T>(s: seq<T>, k: nat)
    requires k < |s|
    ensures s[..k] + [s[k]] + s[k + 1..] == s
  {
  }

  lemma Halves<T>(s: seq<T>, k: nat)
    requires k <= |s|
    ensures s[..k] + s[k..] == s
  {
  }

  // The way to the key is full, and the key is not there.
  ghost predicate FullWay<I>(t: Subtree<I>, key: Key, max: nat, h: nat)
    requires Shaped(t, h, 1)
    decreases h
  {
    && |t.keys| == max
    && if t.Leaf? then key !in t.keys else FullWay(t.kids[ChildIndex(t.keys, key)], key, max, h - 1)
  }

  // A subtree splits exactly if every node on the way to a new key is full.
  lemma {:induction false} SplitsIfFull<I>(t: Subtree<I>, key: Key, row: RowId, max: nat, supply: seq<I>, h: nat,
                                           lo: Option<Key>, hi: Option<Key>, least: int)
    requires max >= 2 && Shaped(t, h, 1) && WF(t, h, lo, hi, least, max) && |supply| > h
    ensures Insert(t, key, row, max, supply, h).Split? <==> FullWay(t, key, max, h)
    decreases h
  {
    hide Less, SortedKeys, KeysIn, AtLeast, Below;
    if t.Leaf? {
      LeafHolds(t.keys, key);
    } else {
      var i := ChildIndex(t.keys, key);
      KidIsOk(t.keys, t.kids, i, h - 1, lo, hi, max);
      SplitsIfFull(t.kids[i], key, row, max, supply[..|supply| - 1], h - 1, LoOf(t.keys, lo, i), HiOf(t.keys, hi, i),
                   max / 2);
    }
  }

  // In sorted keys, a key that is there is at its position.
  lemma LeafHolds(keys: seq<Key>, key: Key)
    requires SortedKeys(keys)
    ensures Holds(keys, LeafIndex(keys, key), key) <==> key in keys
  {
    hide Less;
    var i := LeafIndex(keys, key);
    if key in keys {
      var j :| 0 <= j < |keys| && keys[j] == key;
      LessIrreflexive(key);
      assert forall k :: 0 <= k < j ==> Less(keys[k], keys[j]);
    }
  }

  // ---------- repairing ----------

  // A child that has kept enough keys is all that changes.
  lemma EnoughIsLeft<I>(t: Subtree<I>, i: nat, kid: Subtree<I>, min: nat, h: nat)
    requires min >= 1 && t.Node? && Shaped(t, h, 1) && i < |t.kids| && Shaped(kid, h - 1, 0)
    requires |kid.keys| + 1 >= |t.kids[i].keys| && |kid.keys| >= min
    ensures AfterDelete(t, i, kid, min, h) == Node(t.id, t.keys, t.kids[i := kid])
  {
  }

  // All that two neighbours hold between them, the separator of inner nodes included.
  function Row<I>(left: Subtree<I>, sep: Key, right: Subtree<I>): seq<Key> {
    if left.Leaf? then left.keys + right.keys else left.keys + [sep] + right.keys
  }

  // The i-th and the next child of p hold between them what they did, all else in p is as it was, and the left one has
  // n keys now.
  ghost predicate Shifted<I>(p: Subtree<I>, r: Subtree<I>, i: nat, n: int) {
    && p.Node? && r.Node? && r.id == p.id && |r.kids| == |p.kids| == |p.keys| + 1 == |r.keys| + 1 && i < |p.keys|
    && (forall j :: 0 <= j < |p.kids| && j != i && j != i + 1 ==> r.kids[j] == p.kids[j])
    && (forall j :: 0 <= j < |p.keys| && j != i ==> r.keys[j] == p.keys[j])
    && r.kids[i].id == p.kids[i].id && r.kids[i + 1].id == p.kids[i + 1].id
    && |r.kids[i].keys| == n
    && p.kids[i].Leaf? == p.kids[i + 1].Leaf? == r.kids[i].Leaf? == r.kids[i + 1].Leaf?
    && Row(r.kids[i], r.keys[i], r.kids[i + 1]) == Row(p.kids[i], p.keys[i], p.kids[i + 1])
    && if p.kids[i].Leaf? then
         && r.kids[i].rows + r.kids[i + 1].rows == p.kids[i].rows + p.kids[i + 1].rows
         && r.kids[i + 1].keys != [] && r.keys[i] == r.kids[i + 1].keys[0]
       else r.kids[i].kids + r.kids[i + 1].kids == p.kids[i].kids + p.kids[i + 1].kids
  }

  // The i-th and the next child of p have become one, in the place and under the id of the left one.
  ghost predicate Joined<I>(p: Subtree<I>, r: Subtree<I>, i: nat) {
    && p.Node? && r.Node? && r.id == p.id && |p.kids| == |p.keys| + 1 && i < |p.keys|
    && r.keys == p.keys[..i] + p.keys[i + 1..] && |r.kids| == |p.kids| - 1
    && r.kids[..i] == p.kids[..i] && r.kids[i + 1..] == p.kids[i + 2..]
    && r.kids[i].id == p.kids[i].id && r.kids[i].keys == Row(p.kids[i], p.keys[i], p.kids[i + 1])
    && p.kids[i].Leaf? == p.kids[i + 1].Leaf? == r.kids[i].Leaf?
    && if p.kids[i].Leaf? then r.kids[i].rows == p.kids[i].rows + p.kids[i + 1].rows
       else r.kids[i].kids == p.kids[i].kids + p.kids[i + 1].kids
  }

  // The left sibling first, then the right, each only if it can spare a key; else a merge, with the left if there is
  // one.
  lemma RepairMeans<I>(p: Subtree<I>, i: nat, min: nat, h: nat)
    requires min >= 1 && Wanting(p, i, h) && |p.kids[i].keys| < min
    ensures var r := Repair(p, i, min, h);
            if i > 0 && |p.kids[i - 1].keys| > min then Shifted(p, r, i - 1, |p.kids[i - 1].keys| - 1)
            else if i + 1 < |p.kids| && |p.kids[i + 1].keys| > min then Shifted(p, r, i, |p.kids[i].keys| + 1)
            else Joined(p, r, if i > 0 then i - 1 else i)
  {
    if i > 0 && |p.kids[i - 1].keys| > min {
      BorrowedLeft(p, i, h);
    } else if i + 1 < |p.kids| && |p.kids[i + 1].keys| > min {
      BorrowedRight(p, i, h);
    } else {
      MergedMeans(p, if i > 0 then i - 1 else i, h);
    }
  }

  lemma BorrowedLeft<I>(p: Subtree<I>, i: nat, h: nat)
    requires Wanting(p, i, h) && i > 0 && |p.kids[i - 1].keys| >= 2
    ensures Shifted(p, BorrowFromLeft(p, i, h), i - 1, |p.kids[i - 1].keys| - 1)
  {
  }

  lemma BorrowedRight<I>(p: Subtree<I>, i: nat, h: nat)
    requires Wanting(p, i, h) && i + 1 < |p.kids| && |p.kids[i + 1].keys| >= 2
    ensures Shifted(p, BorrowFromRight(p, i, h), i, |p.kids[i].keys| + 1)
  {
  }

  lemma MergedMeans<I>(p: Subtree<I>, i: nat, h: nat)
    requires (Wanting(p, i, h) || Wanting(p, i + 1, h)) && i < |p.keys|
    ensures Joined(p, Merge(p, i, h), i)
  {
  }
}
