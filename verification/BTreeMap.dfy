// A B+Tree is a finite map: over any run of operations, for every order, and at a height logarithmic in its size.
module BTreeMap {
  import opened ByteOrder
  import opened SortedEntries
  import opened Outcomes
  import opened BTreeModel
  import opened BTreeInvariant
  import opened BTreeContents

  ghost function Contents<I>(t: Subtree<I>): map<Key, RowId> {
    MapOf(Flat(t))
  }

  lemma WholeIsSorted<I>(t: Subtree<I>, h: nat, max: nat)
    requires WholeTree(t, h, max)
    ensures Sorted(Flat(t)) && |Contents(t)| == |Flat(t)|
  {
    FlatIsSorted(t, h, None, None, if t.Leaf? then 0 else 1, max);
    MapOfSize(Flat(t));
  }

  lemma GetIsLookup<I>(t: Subtree<I>, key: Key, h: nat, max: nat)
    requires max >= 2 && WholeTree(t, h, max) && Shaped(t, h, 1)
    ensures Get(t, key, h) == if key in Contents(t) then Some(Contents(t)[key]) else None
  {
    hide Less, Get, Flat;
    GetFinds(t, key, h, None, None, if t.Leaf? then 0 else 1, max);
    FindIsLookup(Flat(t), key);
  }

  lemma PutRootFlat<I>(t: Subtree<I>, key: Key, row: RowId, max: nat, supply: seq<I>, h: nat)
    requires max >= 2 && WholeTree(t, h, max) && Shaped(t, h, 1) && |supply| > h + 1
    ensures Flat(PutRoot(t, key, row, max, supply, h)) == PutEntry(Flat(t), key, row)
  {
    hide Less, Insert, PutEntry;
    InsertFlat(t, key, row, max, supply[..|supply| - 1], h, None, None, if t.Leaf? then 0 else 1);
    match Insert(t, key, row, max, supply[..|supply| - 1], h)
    case Fit(_) =>
    case Split(left, _, right) => FlatTwo(left, right);
  }

  // Put is the map update, whatever splits on the way.
  lemma PutIsUpdate<I>(t: Subtree<I>, key: Key, row: RowId, max: nat, supply: seq<I>, h: nat)
    requires max >= 2 && WholeTree(t, h, max) && Shaped(t, h, 1) && |supply| > h + 1
    ensures Contents(PutRoot(t, key, row, max, supply, h)) == Contents(t)[key := row]
  {
    PutRootFlat(t, key, row, max, supply, h);
    MapOfPut(Flat(t), key, row);
  }

  lemma DeleteRootFlat<I>(t: Subtree<I>, key: Key, max: nat, h: nat)
    requires max >= 2 && WholeTree(t, h, max) && Shaped(t, h, 1)
    ensures match DeleteRoot(t, key, max / 2, h)
            case None => Find(Flat(t), key) == None
            case Some(t') => Find(Flat(t), key).Some? && Flat(t') == RemoveEntry(Flat(t), key)
  {
    hide Less, Delete, RemoveEntry, Find;
    DeleteFlat(t, key, h, None, None, if t.Leaf? then 0 else 1, max);
    var r := Delete(t, key, max / 2, h);
    if r.Some? && r.value.Node? && |r.value.keys| == 0 {
      assert r.value.kids == [r.value.kids[0]];
      FlatOne(r.value.kids[0]);
    }
  }

  // Delete removes the key and reports whether it was there, whatever borrows and merges on the way.
  lemma DeleteIsRemoval<I>(t: Subtree<I>, key: Key, max: nat, h: nat)
    requires max >= 2 && WholeTree(t, h, max) && Shaped(t, h, 1)
    ensures var r := DeleteRoot(t, key, max / 2, h);
            && (r.Some? <==> key in Contents(t))
            && (r.Some? ==> Contents(r.value) == Contents(t) - {key})
  {
    hide Less, DeleteRoot, Find, Flat;
    DeleteRootFlat(t, key, max, h);
    FindIsLookup(Flat(t), key);
    WholeIsSorted(t, h, max);
    MapOfRemove(Flat(t), key);
  }

  // ---------- runs ----------

  datatype Op = PutOp(key: Key, row: RowId) | DeleteOp(key: Key)

  ghost function MapStep(m: map<Key, RowId>, op: Op): map<Key, RowId> {
    match op
    case PutOp(key, row) => m[key := row]
    case DeleteOp(key) => m - {key}
  }

  ghost function MapRun(ops: seq<Op>): map<Key, RowId> {
    if ops == [] then map[] else MapStep(MapRun(ops[..|ops| - 1]), ops[|ops| - 1])
  }

  // A tree and the number of levels above its leaves.
  datatype Standing = Standing(t: Subtree<()>, h: nat)

  ghost predicate Stands(s: Standing, max: nat) {
    max >= 2 && WholeTree(s.t, s.h, max) && Shaped(s.t, s.h, 1)
  }

  ghost function TreeStep(s: Standing, op: Op, max: nat): Standing
    requires Stands(s, max)
  {
    match op
    case PutOp(key, row) =>
      var supply := seq(s.h + 2, _ => ());
      Standing(PutRoot(s.t, key, row, max, supply, s.h), PutHeight(s.t, key, row, max, supply, s.h))
    case DeleteOp(key) =>
      match DeleteRoot(s.t, key, max / 2, s.h)
      case None => s
      case Some(t') => Standing(t', DeleteHeight(s.t, key, max / 2, s.h))
  }

  lemma StepRefines(s: Standing, op: Op, max: nat)
    requires Stands(s, max)
    ensures Stands(TreeStep(s, op, max), max)
    ensures Contents(TreeStep(s, op, max).t) == MapStep(Contents(s.t), op)
  {
    hide Less, WholeTree, Shaped, PutRoot, DeleteRoot, PutHeight, DeleteHeight, Contents;
    match op
    case PutOp(key, row) =>
      var supply := seq(s.h + 2, _ => ());
      PutKeepsWhole(s.t, key, row, max, supply, s.h);
      PutIsUpdate(s.t, key, row, max, supply, s.h);
      WholeIsShaped(TreeStep(s, op, max).t, TreeStep(s, op, max).h, max);
    case DeleteOp(key) =>
      DeleteKeepsWhole(s.t, key, max, s.h);
      DeleteIsRemoval(s.t, key, max, s.h);
      if DeleteRoot(s.t, key, max / 2, s.h).Some? {
        WholeIsShaped(TreeStep(s, op, max).t, TreeStep(s, op, max).h, max);
      }
  }

  ghost function TreeRun(ops: seq<Op>, max: nat): (s: Standing)
    requires max >= 2
    ensures Stands(s, max)
  {
    if ops == [] then
      Standing(Leaf((), [], []), 0)
    else
      var s := TreeRun(ops[..|ops| - 1], max);
      StepRefines(s, ops[|ops| - 1], max);
      TreeStep(s, ops[|ops| - 1], max)
  }

  // For every order and every sequence of insertions and deletions, the tree built from nothing holds exactly what a
  // map given the same operations holds, and finds exactly that.
  lemma {:induction false} RunRefinesMap(ops: seq<Op>, max: nat, key: Key)
    requires max >= 2
    ensures var s := TreeRun(ops, max);
            && Contents(s.t) == MapRun(ops)
            && |Flat(s.t)| == |MapRun(ops)|
            && Get(s.t, key, s.h) == if key in MapRun(ops) then Some(MapRun(ops)[key]) else None
  {
    hide Less, WholeTree, Shaped, TreeStep, Get, MapStep;
    var s := TreeRun(ops, max);
    if ops != [] {
      RunRefinesMap(ops[..|ops| - 1], max, key);
      StepRefines(TreeRun(ops[..|ops| - 1], max), ops[|ops| - 1], max);
    }
    WholeIsSorted(s.t, s.h, max);
    GetIsLookup(s.t, key, s.h, max);
  }

  // ---------- height ----------

  function Pow(b: nat, e: nat): nat {
    if e == 0 then 1 else b * Pow(b, e - 1)
  }

  lemma {:induction false} KidsCount<I>(kids: seq<Subtree<I>>, low: nat, high: nat)
    requires forall i :: 0 <= i < |kids| ==> low <= |Flat(kids[i])| <= high
    ensures |kids| * low <= |FlatAll(kids)| <= |kids| * high
  {
    if kids != [] {
      KidsCount(kids[1..], low, high);
      MulSucc(|kids| - 1, low);
      MulSucc(|kids| - 1, high);
    }
  }

  lemma MulSucc(n: nat, x: nat)
    ensures (n + 1) * x == n * x + x
  {
  }

  lemma MulMono(a: nat, b: nat, x: nat)
    requires a <= b
    ensures a * x <= b * x
  {
  }

  // A subtree h levels above its leaves holds between half full and full at every level.
  lemma {:induction false} SubtreeCount<I>(t: Subtree<I>, h: nat, lo: Option<Key>, hi: Option<Key>, max: nat)
    requires max >= 2 && WF(t, h, lo, hi, max / 2, max)
    ensures max / 2 * Pow(max / 2 + 1, h) <= |Flat(t)| <= max * Pow(max + 1, h)
    decreases h
  {
    hide Less, SortedKeys, KeysIn;
    if t.Node? {
      var low, high := max / 2 * Pow(max / 2 + 1, h - 1), max * Pow(max + 1, h - 1);
      KidsInRange(t, h, lo, hi, max / 2, max, low, high);
      MulMono(max / 2 + 1, |t.kids|, low);
      MulMono(|t.kids|, max + 1, high);
      MulSwap(max / 2 + 1, max / 2, Pow(max / 2 + 1, h - 1));
      MulSwap(max + 1, max, Pow(max + 1, h - 1));
    }
  }

  lemma MulSwap(a: nat, b: nat, c: nat)
    ensures a * (b * c) == b * (a * c)
  {
  }

  lemma {:induction false} KidsInRange<I>(t: Subtree<I>, h: nat, lo: Option<Key>, hi: Option<Key>, least: int, max: nat,
                                          low: nat, high: nat)
    requires max >= 2 && t.Node? && WF(t, h, lo, hi, least, max)
    requires low == max / 2 * Pow(max / 2 + 1, h - 1) && high == max * Pow(max + 1, h - 1)
    ensures |t.kids| == |t.keys| + 1
    ensures |t.kids| * low <= |Flat(t)| <= |t.kids| * high
    decreases h, 0
  {
    hide Less, SortedKeys, KeysIn;
    forall i | 0 <= i < |t.kids|
      ensures low <= |Flat(t.kids[i])| <= high
    {
      KidIsOk(t.keys, t.kids, i, h - 1, lo, hi, max);
      SubtreeCount(t.kids[i], h - 1, LoOf(t.keys, lo, i), HiOf(t.keys, hi, i), max);
    }
    KidsCount(t.kids, low, high);
  }

  // The height of a whole tree and the number of its entries bound each other.
  lemma WholeCount<I>(t: Subtree<I>, h: nat, max: nat)
    requires max >= 2 && WholeTree(t, h, max)
    ensures |Flat(t)| <= max * Pow(max + 1, h)
    ensures h >= 1 ==> 2 * (max / 2 * Pow(max / 2 + 1, h - 1)) <= |Flat(t)|
  {
    hide Less, SortedKeys, KeysIn;
    if t.Node? {
      var low, high := max / 2 * Pow(max / 2 + 1, h - 1), max * Pow(max + 1, h - 1);
      KidsInRange(t, h, None, None, 1, max, low, high);
      MulMono(2, |t.kids|, low);
      MulMono(|t.kids|, max + 1, high);
      MulSwap(max + 1, max, Pow(max + 1, h - 1));
    }
  }
}
