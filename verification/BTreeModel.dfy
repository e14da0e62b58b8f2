// The B+Tree on values: a node is its id, its keys and its rows or children. The operations follow the node methods
// of internal/btree branch by branch; the ids are the node objects in module BTree, and anything at all here.
module BTreeModel {
  import opened ByteOrder
  import opened SortedEntries
  import opened Outcomes

  datatype Subtree<I> =
    | Leaf(id: I, keys: seq<Key>, rows: seq<RowId>)
    | Node(id: I, keys: seq<Key>, kids: seq<Subtree<I>>)

  // ---------- positions ----------

  // The first key that is not below the one looked for.
  function LeafIndex(keys: seq<Key>, key: Key): (i: nat)
    ensures i <= |keys|
    ensures forall j :: 0 <= j < i ==> Less(keys[j], key)
    ensures i < |keys| ==> !Less(keys[i], key)
  {
    if keys == [] || !Less(keys[0], key) then 0 else 1 + LeafIndex(keys[1..], key)
  }

  // The first key above the one looked for: the child before it holds the key, if any does.
  function ChildIndex(keys: seq<Key>, key: Key): (i: nat)
    ensures i <= |keys|
    ensures forall j :: 0 <= j < i ==> !Less(key, keys[j])
    ensures i < |keys| ==> Less(key, keys[i])
  {
    if keys == [] || Less(key, keys[0]) then 0 else 1 + ChildIndex(keys[1..], key)
  }

  function InsertAt<T>(s: seq<T>, i: nat, x: T): seq<T>
    requires i <= |s|
  {
    s[..i] + [x] + s[i..]
  }

  function RemoveAt<T>(s: seq<T>, i: nat): seq<T>
    requires i < |s|
  {
    s[..i] + s[i + 1..]
  }

  predicate Holds(keys: seq<Key>, i: nat, key: Key) {
    i < |keys| && keys[i] == key
  }

  // ---------- shape ----------

  // All leaves are h levels down, and the counts of keys, rows and children match. An inner node has a key, except
  // that the top one may have lost its last.
  ghost predicate Shaped<I>(t: Subtree<I>, h: nat, least: nat) {
    match t
    case Leaf(_, keys, rows) => h == 0 && |rows| == |keys|
    case Node(_, keys, kids) =>
      && h > 0 && |keys| >= least && |kids| == |keys| + 1
      && forall i :: 0 <= i < |kids| ==> Shaped(kids[i], h - 1, 1)
  }

  // ---------- lookup ----------

  function Get<I>(t: Subtree<I>, key: Key, ghost h: nat): Option<RowId>
    requires Shaped(t, h, 1)
    decreases h
  {
    match t
    case Leaf(_, keys, rows) =>
      var i := LeafIndex(keys, key);
      if Holds(keys, i, key) then Some(rows[i]) else None
    case Node(_, keys, kids) => Get(kids[ChildIndex(keys, key)], key, h - 1)
  }

  // ---------- insertion ----------

  datatype Inserted<I> =
    | Fit(t: Subtree<I>)
    | Split(left: Subtree<I>, sep: Key, right: Subtree<I>)

  ghost predicate InsertedShaped<I>(r: Inserted<I>, h: nat) {
    match r
    case Fit(t) => Shaped(t, h, 1)
    case Split(left, _, right) => Shaped(left, h, 1) && Shaped(right, h, 1)
  }

  // Puts the entry into the subtree. A node that overflows splits; the new right half of a node at height k gets
  // the id supply[k].
  function Insert<I>(t: Subtree<I>, key: Key, row: RowId, max: nat, supply: seq<I>, ghost h: nat): (r: Inserted<I>)
    requires max >= 2 && Shaped(t, h, 1) && |supply| > h
    ensures InsertedShaped(r, h)
    decreases h
  {
    if t.Leaf? then InsertLeaf(t, key, row, max, supply[0])
    else
      var i := ChildIndex(t.keys, key);
      Absorb(t, i, Insert(t.kids[i], key, row, max, supply[..|supply| - 1], h - 1), max, supply[|supply| - 1], h)
  }

  function InsertLeaf<I>(t: Subtree<I>, key: Key, row: RowId, max: nat, id: I): (r: Inserted<I>)
    requires max >= 2 && t.Leaf? && |t.rows| == |t.keys|
    ensures InsertedShaped(r, 0)
  {
    var i := LeafIndex(t.keys, key);
    if Holds(t.keys, i, key) then Fit(Leaf(t.id, t.keys, t.rows[i := row]))
    else
      var grown := Leaf(t.id, InsertAt(t.keys, i, key), InsertAt(t.rows, i, row));
      if |grown.keys| <= max then Fit(grown) else SplitLeaf(grown, id)
  }

  // What becomes of a node when the insertion into its i-th child has given r.
  function Absorb<I>(t: Subtree<I>, i: nat, r: Inserted<I>, max: nat, id: I, ghost h: nat): (r': Inserted<I>)
    requires max >= 2 && t.Node? && Shaped(t, h, 1) && i < |t.kids| && InsertedShaped(r, h - 1)
    ensures InsertedShaped(r', h)
  {
    match r
    case Fit(kid) => Fit(Node(t.id, t.keys, t.kids[i := kid]))
    case Split(left, sep, right) =>
      var grown := GrowNode(t, i, left, sep, right);
      if |grown.keys| <= max then Fit(grown) else SplitNode(grown, id, h)
  }

  function GrowNode<I>(t: Subtree<I>, i: nat, left: Subtree<I>, sep: Key, right: Subtree<I>): Subtree<I>
    requires t.Node? && i <= |t.keys| && |t.kids| == |t.keys| + 1
  {
    Node(t.id, InsertAt(t.keys, i, sep), t.kids[..i] + [left, right] + t.kids[i + 1..])
  }

  // A leaf keeps its lower half; the first key of the upper half is copied up.
  function SplitLeaf<I>(t: Subtree<I>, id: I): (r: Inserted<I>)
    requires t.Leaf? && |t.keys| >= 2 && |t.rows| == |t.keys|
    ensures r.Split? && r.left.Leaf? && r.right.Leaf?
  {
    var mid := |t.keys| / 2;
    Split(Leaf(t.id, t.keys[..mid], t.rows[..mid]), t.keys[mid], Leaf(id, t.keys[mid..], t.rows[mid..]))
  }

  // An inner node's middle key moves up.
  function SplitNode<I>(t: Subtree<I>, id: I, ghost h: nat): (r: Inserted<I>)
    requires t.Node? && |t.keys| >= 3 && Shaped(t, h, 1)
    ensures r.Split? && Shaped(r.left, h, 1) && Shaped(r.right, h, 1)
  {
    var mid := |t.keys| / 2;
    Split(Node(t.id, t.keys[..mid], t.kids[..mid + 1]), t.keys[mid],
          Node(id, t.keys[mid + 1..], t.kids[mid + 1..]))
  }

  // ---------- deletion ----------

  // Removes the key from the subtree, if it is there. The top node may be left one key short.
  function Delete<I>(t: Subtree<I>, key: Key, min: nat, ghost h: nat): (r: Option<Subtree<I>>)
    requires min >= 1 && Shaped(t, h, 1)
    ensures r.Some? ==> Shaped(r.value, h, 0) && |r.value.keys| + 1 >= |t.keys|
    decreases h
  {
    if t.Leaf? then
      var i := LeafIndex(t.keys, key);
      if Holds(t.keys, i, key) then Some(Leaf(t.id, RemoveAt(t.keys, i), RemoveAt(t.rows, i))) else None
    else
      var i := ChildIndex(t.keys, key);
      match Delete(t.kids[i], key, min, h - 1)
      case None => None
      case Some(kid) => Some(AfterDelete(t, i, kid, min, h))
  }

  // What becomes of a node when the deletion in its i-th child has left kid.
  function AfterDelete<I>(t: Subtree<I>, i: nat, kid: Subtree<I>, min: nat, ghost h: nat): (r: Subtree<I>)
    requires min >= 1 && t.Node? && Shaped(t, h, 1) && i < |t.kids| && Shaped(kid, h - 1, 0)
    requires |kid.keys| + 1 >= |t.kids[i].keys|
    ensures Shaped(r, h, 0) && |r.keys| + 1 >= |t.keys|
  {
    AfterDeleteIsWanting(t, i, kid, h);
    var p := Node(t.id, t.keys, t.kids[i := kid]);
    if |kid.keys| < min then Repair(p, i, min, h)
    else
      assert kid.Node? ==> |kid.keys| >= 1;
      p
  }

  lemma AfterDeleteIsWanting<I>(t: Subtree<I>, i: nat, kid: Subtree<I>, h: nat)
    requires t.Node? && Shaped(t, h, 1) && i < |t.kids| && Shaped(kid, h - 1, 0)
    ensures Wanting(Node(t.id, t.keys, t.kids[i := kid]), i, h)
  {
  }

  // Every child but possibly the i-th is in shape, and that one has lost at most its last key.
  ghost predicate Wanting<I>(p: Subtree<I>, i: nat, h: nat) {
    && p.Node? && h > 0 && |p.keys| >= 1 && |p.kids| == |p.keys| + 1 && i < |p.kids|
    && Shaped(p.kids[i], h - 1, 0)
    && forall j :: 0 <= j < |p.kids| && j != i ==> Shaped(p.kids[j], h - 1, 1)
  }

  // The i-th child is short of a key: borrow one from a sibling that can spare it, the left one first, or merge.
  function Repair<I>(p: Subtree<I>, i: nat, min: nat, ghost h: nat): (r: Subtree<I>)
    requires min >= 1 && Wanting(p, i, h) && |p.kids[i].keys| < min
    ensures Shaped(r, h, 0) && |r.keys| <= |p.keys| <= |r.keys| + 1
  {
    if i > 0 && |p.kids[i - 1].keys| > min then BorrowFromLeft(p, i, h)
    else if i < |p.kids| - 1 && |p.kids[i + 1].keys| > min then BorrowFromRight(p, i, h)
    else if i > 0 then Merge(p, i - 1, h)
    else Merge(p, i, h)
  }

  function BorrowFromLeft<I>(p: Subtree<I>, i: nat, ghost h: nat): (r: Subtree<I>)
    requires Wanting(p, i, h) && i > 0 && |p.kids[i - 1].keys| >= 2
    ensures Shaped(r, h, 1) && |r.keys| == |p.keys|
  {
    var left, child := p.kids[i - 1], p.kids[i];
    var last := |left.keys| - 1;
    if child.Leaf? then
      var child' := Leaf(child.id, [left.keys[last]] + child.keys, [left.rows[last]] + child.rows);
      var left' := Leaf(left.id, left.keys[..last], left.rows[..last]);
      Node(p.id, p.keys[i - 1 := child'.keys[0]], p.kids[i - 1 := left'][i := child'])
    else
      var child' := Node(child.id, [p.keys[i - 1]] + child.keys, [left.kids[last + 1]] + child.kids);
      var left' := Node(left.id, left.keys[..last], left.kids[..last + 1]);
      Node(p.id, p.keys[i - 1 := left.keys[last]], p.kids[i - 1 := left'][i := child'])
  }

  function BorrowFromRight<I>(p: Subtree<I>, i: nat, ghost h: nat): (r: Subtree<I>)
    requires Wanting(p, i, h) && i + 1 < |p.kids| && |p.kids[i + 1].keys| >= 2
    ensures Shaped(r, h, 1) && |r.keys| == |p.keys|
  {
    var child, right := p.kids[i], p.kids[i + 1];
    if child.Leaf? then
      var child' := Leaf(child.id, child.keys + [right.keys[0]], child.rows + [right.rows[0]]);
      var right' := Leaf(right.id, right.keys[1..], right.rows[1..]);
      Node(p.id, p.keys[i := right'.keys[0]], p.kids[i := child'][i + 1 := right'])
    else
      var child' := Node(child.id, child.keys + [p.keys[i]], child.kids + [right.kids[0]]);
      var right' := Node(right.id, right.keys[1..], right.kids[1..]);
      Node(p.id, p.keys[i := right.keys[0]], p.kids[i := child'][i + 1 := right'])
  }

  // Children i and i + 1 become one. Between leaves the separator is dropped, between inner nodes it is pulled down.
  function Merge<I>(p: Subtree<I>, i: nat, ghost h: nat): (r: Subtree<I>)
    requires (Wanting(p, i, h) || Wanting(p, i + 1, h)) && i < |p.keys|
    ensures Shaped(r, h, 0) && |r.keys| + 1 == |p.keys|
  {
    var merged := Merged(p.kids[i], p.keys[i], p.kids[i + 1]);
    Node(p.id, RemoveAt(p.keys, i), p.kids[..i] + [merged] + p.kids[i + 2..])
  }

  function Merged<I>(left: Subtree<I>, sep: Key, right: Subtree<I>): Subtree<I>
    requires left.Leaf? == right.Leaf?
  {
    if left.Leaf? then Leaf(left.id, left.keys + right.keys, left.rows + right.rows)
    else Node(left.id, left.keys + [sep] + right.keys, left.kids + right.kids)
  }

  // ---------- contents ----------

  ghost function Zip(keys: seq<Key>, rows: seq<RowId>): (es: seq<Entry>)
    requires |rows| == |keys|
    ensures |es| == |keys|
  {
    seq(|keys|, i requires 0 <= i < |keys| => Entry(keys[i], rows[i]))
  }

  // All entries, from left to right.
  ghost function Flat<I>(t: Subtree<I>): seq<Entry>
    decreases t, 0
  {
    match t
    case Leaf(_, keys, rows) => if |rows| == |keys| then Zip(keys, rows) else []
    case Node(_, _, kids) => FlatAll(kids)
  }

  ghost function FlatAll<I>(kids: seq<Subtree<I>>): seq<Entry>
    decreases kids, 1
  {
    if kids == [] then [] else Flat(kids[0]) + FlatAll(kids[1..])
  }

  lemma {:induction false} FlatAppend<I>(a: seq<Subtree<I>>, b: seq<Subtree<I>>)
    ensures FlatAll(a + b) == FlatAll(a) + FlatAll(b)
  {
    if a == [] {
      assert a + b == b;
    } else {
      assert (a + b)[1..] == a[1..] + b;
      FlatAppend(a[1..], b);
    }
  }
}
