// What the operations do to the entries a tree holds, read from left to right: splits, borrows and merges change
// nothing, insertion and deletion change what a sorted map would.
module BTreeContents {
  import opened ByteOrder
  import opened SortedEntries
  import opened Outcomes
  import opened BTreeModel
  import opened BTreeInvariant

  ghost predicate EntriesIn(es: seq<Entry>, lo: Option<Key>, hi: Option<Key>) {
    forall i :: 0 <= i < |es| ==> AtLeast(es[i].key, lo) && Below(es[i].key, hi)
  }

  // ---------- sequences of children ----------

  lemma FlatSplit<I>(kids: seq<Subtree<I>>, i: nat)
    requires i < |kids|
    ensures FlatAll(kids) == FlatAll(kids[..i]) + Flat(kids[i]) + FlatAll(kids[i + 1..])
  {
    assert kids == kids[..i] + kids[i..];
    FlatAppend(kids[..i], kids[i..]);
    assert kids[i..][1..] == kids[i + 1..];
  }

  lemma FlatOne<I>(kid: Subtree<I>)
    ensures FlatAll([kid]) == Flat(kid)
  {
    assert [kid][1..] == [];
    assert FlatAll<I>([]) == [];
    assert Flat(kid) + [] == Flat(kid);
  }

  lemma FlatTwo<I>(a: Subtree<I>, b: Subtree<I>)
    ensures FlatAll([a, b]) == Flat(a) + Flat(b)
  {
    assert [a, b][1..] == [b];
    FlatOne(b);
  }

  lemma FlatAround<I>(before: seq<Subtree<I>>, mid: seq<Subtree<I>>, after: seq<Subtree<I>>)
    ensures FlatAll(before + mid + after) == FlatAll(before) + FlatAll(mid) + FlatAll(after)
  {
    FlatAppend(before + mid, after);
    FlatAppend(before, mid);
  }

  // ---------- order ----------

  lemma JoinEntries(a: seq<Entry>, b: seq<Entry>, lo: Option<Key>, sep: Key, hi: Option<Key>)
    requires Sorted(a) && EntriesIn(a, lo, Some(sep)) && AtLeast(sep, lo)
    requires Sorted(b) && EntriesIn(b, Some(sep), hi) && Below(sep, hi)
    ensures Sorted(a + b) && EntriesIn(a + b, lo, hi)
  {
    hide Less;
    forall i, j | 0 <= i < |a| && 0 <= j < |b|
      ensures Less(a[i].key, b[j].key)
    {
      Order3(a[i].key, sep, b[j].key);
    }
    forall i | 0 <= i < |a|
      ensures Below(a[i].key, hi)
    {
      if hi.Some? {
        LessTransitive(a[i].key, sep, hi.value);
      }
    }
    forall j | 0 <= j < |b|
      ensures AtLeast(b[j].key, lo)
    {
      if lo.Some? {
        Order3(lo.value, sep, b[j].key);
      }
    }
  }

  // The entries of a well formed tree are sorted and within its bounds.
  lemma {:induction false} FlatIsSorted<I>(t: Subtree<I>, h: nat, lo: Option<Key>, hi: Option<Key>, least: int,
                                           max: nat)
    requires WF(t, h, lo, hi, least, max)
    ensures Sorted(Flat(t)) && EntriesIn(Flat(t), lo, hi)
    decreases h, 0
  {
    hide Less, AtLeast, Below;
    if t.Node? {
      KidsFlatIsSorted(t.keys, t.kids, h - 1, lo, hi, max, -1);
    }
  }

  lemma {:induction false} KidsFlatIsSorted<I>(keys: seq<Key>, kids: seq<Subtree<I>>, h: nat, lo: Option<Key>,
                                               hi: Option<Key>, max: nat, weak: int)
    requires KidsOk(keys, kids, h, lo, hi, max, weak)
    ensures Sorted(FlatAll(kids)) && EntriesIn(FlatAll(kids), lo, hi)
    decreases h, 1, |kids|
  {
    hide Less, AtLeast, Below, WF;
    var n := |keys|;
    assert KidOk(keys, kids[n], n, h, lo, hi, max, weak);
    FlatIsSorted(kids[n], h, LoOf(keys, lo, n), hi, if n == weak then max / 2 - 1 else max / 2, max);
    if n == 0 {
      assert kids == [kids[0]];
      FlatOne(kids[0]);
    } else {
      var sep := keys[n - 1];
      KidsFront(keys, kids, h, lo, hi, max, weak);
      KidsFlatIsSorted(keys[..n - 1], kids[..n], h, lo, Some(sep), max, weak);
      assert kids == kids[..n] + [kids[n]];
      FlatAppend(kids[..n], [kids[n]]);
      FlatOne(kids[n]);
      JoinEntries(FlatAll(kids[..n]), Flat(kids[n]), lo, sep, hi);
    }
  }

  lemma KidsFront<I>(keys: seq<Key>, kids: seq<Subtree<I>>, h: nat, lo: Option<Key>, hi: Option<Key>, max: nat,
                     weak: int)
    requires KidsOk(keys, kids, h, lo, hi, max, weak) && |keys| > 0
    ensures KidsOk(keys[..|keys| - 1], kids[..|keys|], h, lo, Some(keys[|keys| - 1]), max, weak)
    ensures AtLeast(keys[|keys| - 1], lo) && Below(keys[|keys| - 1], hi)
  {
    hide Less, WF;
    var n := |keys| - 1;
    CutSorted(keys, n, lo, hi);
    var front := kids[..n + 1];
    forall j | 0 <= j < |front|
      ensures KidOk(keys[..n], front[j], j, h, lo, Some(keys[n]), max, weak)
    {
      assert KidOk(keys, kids[j], j, h, lo, hi, max, weak);
    }
  }

  // Around the child chosen for a key, all entries to the left are below it and all to the right above.
  lemma AroundChild<I>(keys: seq<Key>, kids: seq<Subtree<I>>, key: Key, h: nat, lo: Option<Key>, hi: Option<Key>,
                       max: nat)
    requires KidsOk(keys, kids, h, lo, hi, max, -1)
    ensures var i := ChildIndex(keys, key);
            && |kids| == |keys| + 1
            && AllBelow(FlatAll(kids[..i]), key) && AllAbove(FlatAll(kids[i + 1..]), key)
  {
    hide Less, WF, KidsOk;
    KidsAreSorted(keys, kids, h, lo, hi, max, -1);
    assert |kids| == |keys| + 1 by { KidIsOk(keys, kids, 0, h, lo, hi, max); }
    var i := ChildIndex(keys, key);
    if i > 0 {
      KidsCut(keys, kids, i - 1, h, lo, hi, max);
      KidsFlatIsSorted(keys[..i - 1], kids[..i], h, lo, Some(keys[i - 1]), max, -1);
      var left := FlatAll(kids[..i]);
      forall k | 0 <= k < |left|
        ensures Less(left[k].key, key)
      {
        Order3(left[k].key, keys[i - 1], key);
      }
    }
    if i < |keys| {
      KidsCut(keys, kids, i, h, lo, hi, max);
      KidsFlatIsSorted(keys[i + 1..], kids[i + 1..], h, Some(keys[i]), hi, max, -1);
      var right := FlatAll(kids[i + 1..]);
      forall k | 0 <= k < |right|
        ensures Less(key, right[k].key)
      {
        Order3(key, keys[i], right[k].key);
      }
    } else {
      assert kids[i + 1..] == [];
    }
  }

  // ---------- leaves ----------

  // Around the position found for a key in a leaf, likewise.
  lemma AroundLeafKey(keys: seq<Key>, rows: seq<RowId>, key: Key)
    requires |rows| == |keys| && SortedKeys(keys)
    ensures var i := LeafIndex(keys, key);
            && AllBelow(Zip(keys, rows)[..i], key)
            && (if Holds(keys, i, key) then AllAbove(Zip(keys, rows)[i + 1..], key)
                else AllAbove(Zip(keys, rows)[i..], key))
  {
    hide Less;
    var i := LeafIndex(keys, key);
    if i < |keys| && !Holds(keys, i, key) {
      LessTotal(keys[i], key);
      AllFrom(keys, i, key);
    }
  }

  lemma ZipEdits(keys: seq<Key>, rows: seq<RowId>, i: nat, key: Key, row: RowId)
    requires |rows| == |keys| && i <= |keys|
    ensures Zip(InsertAt(keys, i, key), InsertAt(rows, i, row)) ==
            Zip(keys, rows)[..i] + [Entry(key, row)] + Zip(keys, rows)[i..]
    ensures i < |keys| ==> Zip(keys, rows)[i] == Entry(keys[i], rows[i])
    ensures i < |keys| ==>
              Zip(keys, rows[i := row]) == Zip(keys, rows)[..i] + [Entry(keys[i], row)] + Zip(keys, rows)[i + 1..]
    ensures i < |keys| ==> Zip(RemoveAt(keys, i), RemoveAt(rows, i)) == Zip(keys, rows)[..i] + Zip(keys, rows)[i + 1..]
  {
  }

  lemma Around(es: seq<Entry>, i: nat)
    requires i <= |es|
    ensures es == es[..i] + [] + es[i..]
    ensures i < |es| ==> es == es[..i] + [es[i]] + es[i + 1..]
  {
  }

  lemma AtOne(key: Key, row: RowId, row': RowId)
    ensures PutEntry([], key, row') == [Entry(key, row')]
    ensures PutEntry([Entry(key, row)], key, row') == [Entry(key, row')]
    ensures RemoveEntry([Entry(key, row)], key) == []
    ensures Find([Entry(key, row)], key) == Some(row) && Find([], key) == None
  {
    LessIrreflexive(key);
  }

  lemma LeafInsertFlat(keys: seq<Key>, rows: seq<RowId>, key: Key, row: RowId)
    requires |rows| == |keys| && SortedKeys(keys)
    ensures var i := LeafIndex(keys, key);
            PutEntry(Zip(keys, rows), key, row) ==
            if Holds(keys, i, key) then Zip(keys, rows[i := row])
            else Zip(InsertAt(keys, i, key), InsertAt(rows, i, row))
  {
    hide Less, LeafIndex, Zip, PutEntry, SortedKeys, AllBelow, AllAbove, InsertAt;
    var i := LeafIndex(keys, key);
    var es := Zip(keys, rows);
    AroundLeafKey(keys, rows, key);
    ZipEdits(keys, rows, i, key, row);
    Around(es, i);
    if Holds(keys, i, key) {
      PutBetween(es[..i], [es[i]], es[i + 1..], key, row);
      AtOne(key, rows[i], row);
    } else {
      PutBetween(es[..i], [], es[i..], key, row);
      AtOne(key, row, row);
    }
  }

  lemma LeafRemoveFlat(keys: seq<Key>, rows: seq<RowId>, key: Key)
    requires |rows| == |keys| && SortedKeys(keys)
    ensures var i := LeafIndex(keys, key);
            if Holds(keys, i, key) then
              && RemoveEntry(Zip(keys, rows), key) == Zip(RemoveAt(keys, i), RemoveAt(rows, i))
              && Find(Zip(keys, rows), key) == Some(rows[i])
            else Find(Zip(keys, rows), key) == None
  {
    hide Less, LeafIndex, Zip, RemoveEntry, Find, SortedKeys, AllBelow, AllAbove, RemoveAt;
    var i := LeafIndex(keys, key);
    var es := Zip(keys, rows);
    AroundLeafKey(keys, rows, key);
    Around(es, i);
    if Holds(keys, i, key) {
      ZipEdits(keys, rows, i, key, rows[i]);
      AtOne(key, rows[i], rows[i]);
      RemoveBetween(es[..i], [es[i]], es[i + 1..], key);
      FindBetween(es[..i], [es[i]], es[i + 1..], key);
      assert es[..i] + [] + es[i + 1..] == es[..i] + es[i + 1..];
    } else {
      AtOne(key, RowId(0, 0), RowId(0, 0));
      FindBetween(es[..i], [], es[i..], key);
    }
  }

  lemma ZipJoin(k1: seq<Key>, r1: seq<RowId>, k2: seq<Key>, r2: seq<RowId>)
    requires |r1| == |k1| && |r2| == |k2|
    ensures Zip(k1 + k2, r1 + r2) == Zip(k1, r1) + Zip(k2, r2)
  {
  }

  // ---------- lookup ----------

  lemma {:induction false} GetFinds<I>(t: Subtree<I>, key: Key, h: nat, lo: Option<Key>, hi: Option<Key>, least: int,
                                       max: nat)
    requires WF(t, h, lo, hi, least, max) && Shaped(t, h, 1)
    ensures Get(t, key, h) == Find(Flat(t), key)
    decreases h
  {
    hide Less, AtLeast, Below, SortedKeys, KeysIn, KidsOk;
    if t.Leaf? {
      LeafRemoveFlat(t.keys, t.rows, key);
    } else {
      var i := ChildIndex(t.keys, key);
      KidIsOk(t.keys, t.kids, i, h - 1, lo, hi, max);
      GetFinds(t.kids[i], key, h - 1, LoOf(t.keys, lo, i), HiOf(t.keys, hi, i), max / 2, max);
      AroundChild(t.keys, t.kids, key, h - 1, lo, hi, max);
      FlatSplit(t.kids, i);
      FindBetween(FlatAll(t.kids[..i]), Flat(t.kids[i]), FlatAll(t.kids[i + 1..]), key);
    }
  }

  // ---------- insertion ----------

  ghost function FlatOf<I>(r: Inserted<I>): seq<Entry> {
    match r
    case Fit(t) => Flat(t)
    case Split(left, _, right) => Flat(left) + Flat(right)
  }

  lemma SplitLeafFlat<I>(t: Subtree<I>, id: I)
    requires t.Leaf? && |t.keys| >= 2 && |t.rows| == |t.keys|
    ensures FlatOf(SplitLeaf(t, id)) == Flat(t)
  {
    var mid := |t.keys| / 2;
    ZipJoin(t.keys[..mid], t.rows[..mid], t.keys[mid..], t.rows[mid..]);
    assert t.keys == t.keys[..mid] + t.keys[mid..] && t.rows == t.rows[..mid] + t.rows[mid..];
  }

  lemma SplitNodeFlat<I>(t: Subtree<I>, id: I, h: nat)
    requires t.Node? && |t.keys| >= 3 && Shaped(t, h, 1)
    ensures FlatOf(SplitNode(t, id, h)) == Flat(t)
  {
    var mid := |t.keys| / 2;
    assert t.kids == t.kids[..mid + 1] + t.kids[mid + 1..];
    FlatAppend(t.kids[..mid + 1], t.kids[mid + 1..]);
  }

  lemma AbsorbFlat<I>(t: Subtree<I>, i: nat, r: Inserted<I>, max: nat, id: I, h: nat)
    requires max >= 2 && t.Node? && Shaped(t, h, 1) && i < |t.kids| && InsertedShaped(r, h - 1)
    ensures FlatOf(Absorb(t, i, r, max, id, h)) == FlatAll(t.kids[..i]) + FlatOf(r) + FlatAll(t.kids[i + 1..])
  {
    hide Shaped;
    match r
    case Fit(kid) =>
      assert t.kids[i := kid] == t.kids[..i] + [kid] + t.kids[i + 1..];
      FlatAround(t.kids[..i], [kid], t.kids[i + 1..]);
      FlatOne(kid);
    case Split(left, sep, right) =>
      FlatAround(t.kids[..i], [left, right], t.kids[i + 1..]);
      FlatTwo(left, right);
      GrownIsShaped(t, i, r, h);
      var grown := GrowNode(t, i, left, sep, right);
      if |grown.keys| > max {
        SplitNodeFlat(grown, id, h);
      }
  }

  lemma GrownIsShaped<I>(t: Subtree<I>, i: nat, r: Inserted<I>, h: nat)
    requires t.Node? && Shaped(t, h, 1) && i < |t.kids| && r.Split? && InsertedShaped(r, h - 1)
    ensures i <= |t.keys| && |t.kids| == |t.keys| + 1 && Shaped(GrowNode(t, i, r.left, r.sep, r.right), h, 1)
  {
  }

  lemma {:induction false} InsertFlat<I>(t: Subtree<I>, key: Key, row: RowId, max: nat, supply: seq<I>, h: nat,
                                         lo: Option<Key>, hi: Option<Key>, least: int)
    requires max >= 2 && WF(t, h, lo, hi, least, max) && Shaped(t, h, 1) && |supply| > h
    ensures FlatOf(Insert(t, key, row, max, supply, h)) == PutEntry(Flat(t), key, row)
    decreases h
  {
    hide Less, AtLeast, Below, SortedKeys, KeysIn, KidsOk, Absorb;
    if t.Leaf? {
      LeafInsertFlat(t.keys, t.rows, key, row);
      var i := LeafIndex(t.keys, key);
      if !Holds(t.keys, i, key) && |t.keys| + 1 > max {
        SplitLeafFlat(Leaf(t.id, InsertAt(t.keys, i, key), InsertAt(t.rows, i, row)), supply[0]);
      }
    } else {
      var i := ChildIndex(t.keys, key);
      var r := Insert(t.kids[i], key, row, max, supply[..|supply| - 1], h - 1);
      KidIsOk(t.keys, t.kids, i, h - 1, lo, hi, max);
      InsertFlat(t.kids[i], key, row, max, supply[..|supply| - 1], h - 1, LoOf(t.keys, lo, i), HiOf(t.keys, hi, i),
                 max / 2);
      AbsorbFlat(t, i, r, max, supply[|supply| - 1], h);
      AroundChild(t.keys, t.kids, key, h - 1, lo, hi, max);
      FlatSplit(t.kids, i);
      PutBetween(FlatAll(t.kids[..i]), Flat(t.kids[i]), FlatAll(t.kids[i + 1..]), key, row);
    }
  }

  // ---------- deletion ----------

  // Two neighbours replaced by children that hold the same entries between them.
  lemma PairFlat<I>(kids: seq<Subtree<I>>, i: nat, a: Subtree<I>, b: Subtree<I>)
    requires i + 1 < |kids| && Flat(a) + Flat(b) == Flat(kids[i]) + Flat(kids[i + 1])
    ensures FlatAll(kids[i := a][i + 1 := b]) == FlatAll(kids)
  {
    assert kids[i := a][i + 1 := b] == kids[..i] + [a, b] + kids[i + 2..];
    assert kids == kids[..i] + [kids[i], kids[i + 1]] + kids[i + 2..];
    FlatAround(kids[..i], [a, b], kids[i + 2..]);
    FlatAround(kids[..i], [kids[i], kids[i + 1]], kids[i + 2..]);
    FlatTwo(a, b);
    FlatTwo(kids[i], kids[i + 1]);
  }

  lemma MoveLast<T>(a: seq<T>, b: seq<T>)
    requires |a| > 0
    ensures a[..|a| - 1] + ([a[|a| - 1]] + b) == a + b
  {
  }

  lemma MoveFirst<T>(a: seq<T>, b: seq<T>)
    requires |b| > 0
    ensures a + [b[0]] + b[1..] == a + b
  {
  }

  lemma LeafLoan<I>(left: Subtree<I>, child: Subtree<I>)
    requires left.Leaf? && child.Leaf? && |left.rows| == |left.keys| >= 1 && |child.rows| == |child.keys|
    ensures var last := |left.keys| - 1;
            Flat(Leaf(left.id, left.keys[..last], left.rows[..last])) +
            Flat(Leaf(child.id, [left.keys[last]] + child.keys, [left.rows[last]] + child.rows)) ==
            Flat(left) + Flat(child)
  {
    hide Zip;
    var last := |left.keys| - 1;
    ZipJoin(left.keys[..last], left.rows[..last], [left.keys[last]] + child.keys, [left.rows[last]] + child.rows);
    ZipJoin(left.keys, left.rows, child.keys, child.rows);
    MoveLast(left.keys, child.keys);
    MoveLast(left.rows, child.rows);
  }

  lemma InnerLoan<I>(left: Subtree<I>, child: Subtree<I>, keys: seq<Key>, keys': seq<Key>)
    requires left.Node? && child.Node? && |left.kids| >= 1
    ensures var last := |left.kids| - 1;
            Flat(Node(left.id, keys, left.kids[..last])) + Flat(Node(child.id, keys',
                                                                     [left.kids[last]] + child.kids)) ==
            Flat(left) + Flat(child)
  {
    hide FlatAll;
    var last := |left.kids| - 1;
    FlatAppend(left.kids[..last], [left.kids[last]] + child.kids);
    FlatAppend(left.kids, child.kids);
    MoveLast(left.kids, child.kids);
  }

  lemma BorrowFromLeftFlat<I>(p: Subtree<I>, i: nat, h: nat)
    requires Wanting(p, i, h) && i > 0 && |p.kids[i - 1].keys| >= 2
    ensures Flat(BorrowFromLeft(p, i, h)) == Flat(p)
  {
    var left, child := p.kids[i - 1], p.kids[i];
    var q := BorrowFromLeft(p, i, h);
    if child.Leaf? {
      LeafLoan(left, child);
    } else {
      InnerLoan(left, child, q.kids[i - 1].keys, q.kids[i].keys);
    }
    hide FlatAll, Zip;
    PairFlat(p.kids, i - 1, q.kids[i - 1], q.kids[i]);
  }

  lemma BorrowFromRightFlat<I>(p: Subtree<I>, i: nat, h: nat)
    requires Wanting(p, i, h) && i + 1 < |p.kids| && |p.kids[i + 1].keys| >= 2
    ensures Flat(BorrowFromRight(p, i, h)) == Flat(p)
  {
    hide Zip, FlatAll;
    var child, right := p.kids[i], p.kids[i + 1];
    var q := BorrowFromRight(p, i, h);
    if child.Leaf? {
      ZipJoin(child.keys + [right.keys[0]], child.rows + [right.rows[0]], right.keys[1..], right.rows[1..]);
      ZipJoin(child.keys, child.rows, right.keys, right.rows);
      MoveFirst(child.keys, right.keys);
      MoveFirst(child.rows, right.rows);
    } else {
      FlatAppend(child.kids + [right.kids[0]], right.kids[1..]);
      FlatAppend(child.kids, right.kids);
      MoveFirst(child.kids, right.kids);
    }
    PairFlat(p.kids, i, q.kids[i], q.kids[i + 1]);
  }

  lemma MergedFlat<I>(kids: seq<Subtree<I>>, i: nat, merged: Subtree<I>)
    requires i + 1 < |kids| && Flat(merged) == Flat(kids[i]) + Flat(kids[i + 1])
    ensures FlatAll(kids[..i] + [merged] + kids[i + 2..]) == FlatAll(kids)
  {
    hide Flat;
    assert kids == kids[..i] + [kids[i], kids[i + 1]] + kids[i + 2..];
    FlatAround(kids[..i], [kids[i], kids[i + 1]], kids[i + 2..]);
    FlatAround(kids[..i], [merged], kids[i + 2..]);
    FlatTwo(kids[i], kids[i + 1]);
    FlatOne(merged);
  }

  lemma MergeFlat<I>(p: Subtree<I>, i: nat, h: nat)
    requires (Wanting(p, i, h) || Wanting(p, i + 1, h)) && i < |p.keys|
    ensures Flat(Merge(p, i, h)) == Flat(p)
  {
    hide Zip, FlatAll;
    var left, right := p.kids[i], p.kids[i + 1];
    if left.Leaf? {
      ZipJoin(left.keys, left.rows, right.keys, right.rows);
    } else {
      FlatAppend(left.kids, right.kids);
    }
    MergedFlat(p.kids, i, Merged(left, p.keys[i], right));
  }

  // No repair moves, drops or duplicates an entry.
  lemma RepairFlat<I>(p: Subtree<I>, i: nat, min: nat, h: nat)
    requires min >= 1 && Wanting(p, i, h) && |p.kids[i].keys| < min
    ensures Flat(Repair(p, i, min, h)) == Flat(p)
  {
    hide Shaped, Flat, BorrowFromLeft, BorrowFromRight, Merge;
    if i > 0 && |p.kids[i - 1].keys| > min {
      BorrowFromLeftFlat(p, i, h);
    } else if i < |p.kids| - 1 && |p.kids[i + 1].keys| > min {
      BorrowFromRightFlat(p, i, h);
    } else if i > 0 {
      MergeFlat(p, i - 1, h);
    } else {
      MergeFlat(p, i, h);
    }
  }

  lemma AfterDeleteFlat<I>(t: Subtree<I>, i: nat, kid: Subtree<I>, min: nat, h: nat)
    requires min >= 1 && t.Node? && Shaped(t, h, 1) && i < |t.kids| && Shaped(kid, h - 1, 0)
    requires |kid.keys| + 1 >= |t.kids[i].keys|
    ensures Flat(AfterDelete(t, i, kid, min, h)) == FlatAll(t.kids[..i]) + Flat(kid) + FlatAll(t.kids[i + 1..])
  {
    hide Shaped, Repair;
    AfterDeleteIsWanting(t, i, kid, h);
    var p := Node(t.id, t.keys, t.kids[i := kid]);
    assert p.kids == t.kids[..i] + [kid] + t.kids[i + 1..];
    FlatAround(t.kids[..i], [kid], t.kids[i + 1..]);
    FlatOne(kid);
    if |kid.keys| < min {
      RepairFlat(p, i, min, h);
    }
  }

  lemma {:induction false} DeleteFlat<I>(t: Subtree<I>, key: Key, h: nat, lo: Option<Key>, hi: Option<Key>,
                                         least: int, max: nat)
    requires max >= 2 && WF(t, h, lo, hi, least, max) && Shaped(t, h, 1)
    ensures match Delete(t, key, max / 2, h)
            case None => Find(Flat(t), key) == None
            case Some(t') => Find(Flat(t), key).Some? && Flat(t') == RemoveEntry(Flat(t), key)
    decreases h
  {
    hide Less, AtLeast, Below, SortedKeys, KeysIn, KidsOk, AfterDelete;
    if t.Leaf? {
      LeafRemoveFlat(t.keys, t.rows, key);
    } else {
      var i := ChildIndex(t.keys, key);
      var r := Delete(t.kids[i], key, max / 2, h - 1);
      KidIsOk(t.keys, t.kids, i, h - 1, lo, hi, max);
      DeleteFlat(t.kids[i], key, h - 1, LoOf(t.keys, lo, i), HiOf(t.keys, hi, i), max / 2, max);
      AroundChild(t.keys, t.kids, key, h - 1, lo, hi, max);
      FlatSplit(t.kids, i);
      FindBetween(FlatAll(t.kids[..i]), Flat(t.kids[i]), FlatAll(t.kids[i + 1..]), key);
      if r.Some? {
        AfterDeleteFlat(t, i, r.value, max / 2, h);
        RemoveBetween(FlatAll(t.kids[..i]), Flat(t.kids[i]), FlatAll(t.kids[i + 1..]), key);
      }
    }
  }
}
