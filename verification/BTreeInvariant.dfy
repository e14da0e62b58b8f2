// What a B+Tree keeps: keys in order, subtrees within the bounds their separators set, all leaves at one depth,
// every node but the root between half full and full. Insertion and deletion preserve it, and change the entries,
// read from left to right, exactly as a sorted map would.
module BTreeInvariant {
  import opened ByteOrder
  import opened SortedEntries
  import opened Outcomes
  import opened BTreeModel

  predicate AtLeast(k: Key, lo: Option<Key>) {
    lo.Some? ==> !Less(k, lo.value)
  }

  predicate Above(k: Key, lo: Option<Key>) {
    lo.Some? ==> Less(lo.value, k)
  }

  predicate Below(k: Key, hi: Option<Key>) {
    hi.Some? ==> Less(k, hi.value)
  }

  ghost predicate SortedKeys(keys: seq<Key>) {
    forall i, j :: 0 <= i < j < |keys| ==> Less(keys[i], keys[j])
  }

  ghost predicate KeysIn(keys: seq<Key>, lo: Option<Key>, hi: Option<Key>) {
    forall i :: 0 <= i < |keys| ==> AtLeast(keys[i], lo) && Below(keys[i], hi)
  }

  // The bounds the separators set for the i-th child.
  function LoOf(keys: seq<Key>, lo: Option<Key>, i: nat): Option<Key>
    requires i <= |keys|
  {
    if i == 0 then lo else Some(keys[i - 1])
  }

  function HiOf(keys: seq<Key>, hi: Option<Key>, i: nat): Option<Key>
    requires i <= |keys|
  {
    if i < |keys| then Some(keys[i]) else hi
  }

  // Well formed, h levels above the leaves, with keys in [lo, hi), at least least of them in the top node and at
  // least max / 2 in the others.
  ghost predicate WF<I>(t: Subtree<I>, h: nat, lo: Option<Key>, hi: Option<Key>, least: int, max: nat)
    decreases h, 0
  {
    && least <= |t.keys| <= max
    && match t
       case Leaf(_, keys, rows) => h == 0 && |rows| == |keys| && SortedKeys(keys) && KeysIn(keys, lo, hi)
       case Node(_, keys, kids) => h > 0 && KidsOk(keys, kids, h - 1, lo, hi, max, -1)
  }

  // The children of a node, at height h. The one at weak, if there is such a one, may be one key short.
  ghost predicate KidsOk<I>(keys: seq<Key>, kids: seq<Subtree<I>>, h: nat, lo: Option<Key>, hi: Option<Key>, max: nat,
                            weak: int)
    decreases h, 2
  {
    && SortedKeys(keys) && KeysIn(keys, lo, hi)
    && |kids| == |keys| + 1
    && forall i :: 0 <= i < |kids| ==> KidOk(keys, kids[i], i, h, lo, hi, max, weak)
  }

  ghost predicate KidOk<I>(keys: seq<Key>, kid: Subtree<I>, i: nat, h: nat, lo: Option<Key>, hi: Option<Key>, max: nat,
                           weak: int)
    requires i <= |keys|
    decreases h, 1
  {
    WF(kid, h, LoOf(keys, lo, i), HiOf(keys, hi, i), if i == weak then max / 2 - 1 else max / 2, max)
  }

  // A whole tree: the root may hold as few keys as none, and one if it is an inner node.
  ghost predicate WholeTree<I>(t: Subtree<I>, h: nat, max: nat) {
    WF(t, h, None, None, if t.Leaf? then 0 else 1, max)
  }

  // ---------- keys ----------

  lemma Order3(a: Key, b: Key, c: Key)
    ensures Less(a, b) && Less(b, c) ==> Less(a, c)
    ensures !Less(b, a) && Less(b, c) ==> Less(a, c)
    ensures Less(a, b) && !Less(c, b) ==> Less(a, c)
    ensures !Less(b, a) && !Less(c, b) ==> !Less(c, a)
    ensures Less(a, b) ==> !Less(b, a)
    ensures Less(a, b) || Less(b, a) || a == b
  {
    hide Less;
    LessTotal(a, b);
    LessTotal(b, c);
    LessIrreflexive(a);
    LessIrreflexive(b);
    if Less(a, b) && Less(b, c) { LessTransitive(a, b, c); }
    if Less(a, b) && Less(b, a) { LessTransitive(a, b, a); }
    if Less(c, b) && Less(b, c) { LessTransitive(c, b, c); LessIrreflexive(c); }
    if Less(c, a) && Less(a, b) { LessTransitive(c, a, b); }
    if Less(b, c) && Less(c, a) { LessTransitive(b, c, a); }
  }

  // Above the key at i means above all keys before it, and so on.
  lemma AllFrom(keys: seq<Key>, i: nat, k: Key)
    requires SortedKeys(keys) && i < |keys| && Less(k, keys[i])
    ensures forall j :: i <= j < |keys| ==> Less(k, keys[j])
  {
    hide Less;
    forall j | i <= j < |keys|
      ensures Less(k, keys[j])
    {
      if i < j {
        LessTransitive(k, keys[i], keys[j]);
      }
    }
  }

  // One comparison tells on which side of a key the position is.
  lemma ChildSide(keys: seq<Key>, key: Key, m: nat)
    requires SortedKeys(keys) && m < |keys|
    ensures Less(key, keys[m]) <==> ChildIndex(keys, key) <= m
  {
    hide Less, ChildIndex;
    var c := ChildIndex(keys, key);
    if c < m {
      LessTransitive(key, keys[c], keys[m]);
    }
  }

  lemma LeafSide(keys: seq<Key>, key: Key, m: nat)
    requires SortedKeys(keys) && m < |keys|
    ensures Less(keys[m], key) <==> m < LeafIndex(keys, key)
  {
    hide Less, LeafIndex;
    var l := LeafIndex(keys, key);
    if l < m && Less(keys[m], key) {
      LessTransitive(keys[l], keys[m], key);
    }
  }

  lemma InsertSorted(keys: seq<Key>, i: nat, k: Key, lo: Option<Key>, hi: Option<Key>)
    requires SortedKeys(keys) && KeysIn(keys, lo, hi) && AtLeast(k, lo) && Below(k, hi) && i <= |keys|
    requires forall j :: 0 <= j < i ==> Less(keys[j], k)
    requires i < |keys| ==> Less(k, keys[i])
    ensures SortedKeys(InsertAt(keys, i, k)) && KeysIn(InsertAt(keys, i, k), lo, hi)
  {
    hide Less, AtLeast, Below;
    if i < |keys| {
      AllFrom(keys, i, k);
    }
  }

  lemma RemoveSorted(keys: seq<Key>, i: nat, lo: Option<Key>, hi: Option<Key>)
    requires SortedKeys(keys) && KeysIn(keys, lo, hi) && i < |keys|
    ensures SortedKeys(RemoveAt(keys, i)) && KeysIn(RemoveAt(keys, i), lo, hi)
  {
    hide Less, AtLeast, Below;
  }

  // Cutting sorted keys at m makes the m-th key a separator.
  lemma CutSorted(keys: seq<Key>, m: nat, lo: Option<Key>, hi: Option<Key>)
    requires SortedKeys(keys) && KeysIn(keys, lo, hi) && m < |keys|
    ensures SortedKeys(keys[..m]) && KeysIn(keys[..m], lo, Some(keys[m]))
    ensures SortedKeys(keys[m..]) && KeysIn(keys[m..], Some(keys[m]), hi)
    ensures SortedKeys(keys[m + 1..]) && KeysIn(keys[m + 1..], Some(keys[m]), hi)
    ensures m > 0 ==> Above(keys[m], lo)
  {
    hide Less;
    LessIrreflexive(keys[m]);
    forall j | m <= j < |keys|
      ensures !Less(keys[j], keys[m])
    {
      Order3(keys[m], keys[j], keys[m]);
    }
    if m > 0 && lo.Some? {
      Order3(lo.value, keys[0], keys[m]);
    }
  }

  lemma JoinSorted(a: seq<Key>, b: seq<Key>, lo: Option<Key>, sep: Key, hi: Option<Key>)
    requires SortedKeys(a) && KeysIn(a, lo, Some(sep)) && AtLeast(sep, lo)
    requires SortedKeys(b) && KeysIn(b, Some(sep), hi) && Below(sep, hi)
    ensures SortedKeys(a + b) && KeysIn(a + b, lo, hi)
  {
    hide Less;
    forall i, j | 0 <= i < |a| && 0 <= j < |b|
      ensures Less(a[i], b[j])
    {
      Order3(a[i], sep, b[j]);
    }
    forall i | 0 <= i < |a|
      ensures Below(a[i], hi)
    {
      if hi.Some? {
        LessTransitive(a[i], sep, hi.value);
      }
    }
    forall j | 0 <= j < |b|
      ensures AtLeast(b[j], lo)
    {
      if lo.Some? {
        Order3(lo.value, sep, b[j]);
      }
    }
  }

  // ---------- children ----------

  // Changing one child within its bounds.
  lemma KidReplaced<I>(keys: seq<Key>, kids: seq<Subtree<I>>, i: nat, kid: Subtree<I>, h: nat, lo: Option<Key>,
                       hi: Option<Key>, max: nat, weak: int)
    requires KidsOk(keys, kids, h, lo, hi, max, -1) && i <= |keys|
    requires KidOk(keys, kid, i, h, lo, hi, max, weak) && (weak == -1 || weak == i)
    ensures KidsOk(keys, kids[i := kid], h, lo, hi, max, weak)
  {
    hide Less, WF, AtLeast, Below;
    var kids' := kids[i := kid];
    forall j | 0 <= j < |kids'|
      ensures KidOk(keys, kids'[j], j, h, lo, hi, max, weak)
    {
      if j != i {
        assert KidOk(keys, kids[j], j, h, lo, hi, max, -1);
      }
    }
  }

  // Replacing one child by two, with a separator between them.
  lemma KidSplit<I>(keys: seq<Key>, kids: seq<Subtree<I>>, i: nat, left: Subtree<I>, sep: Key, right: Subtree<I>,
                    h: nat,
                    lo: Option<Key>, hi: Option<Key>, max: nat)
    requires KidsOk(keys, kids, h, lo, hi, max, -1) && i <= |keys|
    requires WF(left, h, LoOf(keys, lo, i), Some(sep), max / 2, max)
    requires WF(right, h, Some(sep), HiOf(keys, hi, i), max / 2, max)
    requires Above(sep, LoOf(keys, lo, i)) && Below(sep, HiOf(keys, hi, i))
    ensures KidsOk(InsertAt(keys, i, sep), kids[..i] + [left, right] + kids[i + 1..], h, lo, hi, max, -1)
  {
    hide Less, WF;
    var keys' := InsertAt(keys, i, sep);
    var kids' := kids[..i] + [left, right] + kids[i + 1..];
    SeparatorFits(keys, i, sep, lo, hi);
    forall j | 0 <= j < |kids'|
      ensures KidOk(keys', kids'[j], j, h, lo, hi, max, -1)
    {
      if j < i {
        assert KidOk(keys, kids[j], j, h, lo, hi, max, -1);
      } else if j > i + 1 {
        assert KidOk(keys, kids[j - 1], j - 1, h, lo, hi, max, -1);
      }
    }
  }

  // A key strictly between its neighbours keeps the keys sorted and within bounds.
  lemma SeparatorFits(keys: seq<Key>, i: nat, sep: Key, lo: Option<Key>, hi: Option<Key>)
    requires SortedKeys(keys) && KeysIn(keys, lo, hi) && i <= |keys|
    requires Above(sep, LoOf(keys, lo, i)) && Below(sep, HiOf(keys, hi, i))
    ensures SortedKeys(InsertAt(keys, i, sep)) && KeysIn(InsertAt(keys, i, sep), lo, hi)
  {
    hide Less;
    forall j | 0 <= j < i
      ensures Less(keys[j], sep)
    {
      if j < i - 1 {
        LessTransitive(keys[j], keys[i - 1], sep);
      }
    }
    if lo.Some? {
      if i > 0 {
        Order3(lo.value, keys[i - 1], sep);
      }
      Order3(lo.value, sep, sep);
    }
    if hi.Some? && i < |keys| {
      LessTransitive(sep, keys[i], hi.value);
    }
    InsertSorted(keys, i, sep, lo, hi);
  }

  // Cutting a node at key m: the key becomes the separator between the halves.
  lemma KidsCut<I>(keys: seq<Key>, kids: seq<Subtree<I>>, m: nat, h: nat, lo: Option<Key>, hi: Option<Key>, max: nat)
    requires KidsOk(keys, kids, h, lo, hi, max, -1) && m < |keys|
    ensures KidsOk(keys[..m], kids[..m + 1], h, lo, Some(keys[m]), max, -1)
    ensures KidsOk(keys[m + 1..], kids[m + 1..], h, Some(keys[m]), hi, max, -1)
  {
    hide Less, WF, AtLeast, Below;
    CutSorted(keys, m, lo, hi);
    var a, b := kids[..m + 1], kids[m + 1..];
    forall j | 0 <= j < |a|
      ensures KidOk(keys[..m], a[j], j, h, lo, Some(keys[m]), max, -1)
    {
      assert KidOk(keys, kids[j], j, h, lo, hi, max, -1);
    }
    forall j | 0 <= j < |b|
      ensures KidOk(keys[m + 1..], b[j], j, h, Some(keys[m]), hi, max, -1)
    {
      assert KidOk(keys, kids[m + 1 + j], m + 1 + j, h, lo, hi, max, -1);
    }
  }

  lemma WFKeysIn<I>(t: Subtree<I>, h: nat, lo: Option<Key>, hi: Option<Key>, least: int, max: nat)
    requires WF(t, h, lo, hi, least, max)
    ensures SortedKeys(t.keys) && KeysIn(t.keys, lo, hi)
  {
  }

  // A child holds a key, so the separator after it is above the bound before it, not just at it.
  lemma FirstKeyAbove<I>(keys: seq<Key>, kids: seq<Subtree<I>>, h: nat, lo: Key, hi: Option<Key>, max: nat)
    requires max >= 2 && KidsOk(keys, kids, h, Some(lo), hi, max, -1) && |keys| > 0
    ensures Less(lo, keys[0])
  {
    hide Less;
    assert KidOk(keys, kids[0], 0, h, Some(lo), hi, max, -1);
    var kid := kids[0];
    assert WF(kid, h, Some(lo), Some(keys[0]), max / 2, max);
    WFKeysIn(kid, h, Some(lo), Some(keys[0]), max / 2, max);
    Order3(lo, kids[0].keys[0], keys[0]);
  }

  lemma SeparatorInFront(sep: Key, b: seq<Key>, hi: Option<Key>)
    requires SortedKeys(b) && KeysIn(b, Some(sep), hi) && Below(sep, hi)
    requires |b| > 0 ==> Less(sep, b[0])
    ensures SortedKeys([sep] + b) && KeysIn([sep] + b, Some(sep), hi)
  {
    hide Less;
    LessIrreflexive(sep);
    if |b| > 0 {
      AllFrom(b, 0, sep);
    }
  }

  // The reverse: pulling the separator down between two nodes.
  lemma KidsJoin<I>(a: seq<Key>, aKids: seq<Subtree<I>>, sep: Key, b: seq<Key>, bKids: seq<Subtree<I>>, h: nat,
                    lo: Option<Key>, hi: Option<Key>, max: nat)
    requires max >= 2
    requires KidsOk(a, aKids, h, lo, Some(sep), max, -1) && KidsOk(b, bKids, h, Some(sep), hi, max, -1)
    requires AtLeast(sep, lo) && Below(sep, hi)
    ensures KidsOk(a + [sep] + b, aKids + bKids, h, lo, hi, max, -1)
  {
    hide Less, WF;
    var keys := a + [sep] + b;
    var kids := aKids + bKids;
    if |b| > 0 {
      FirstKeyAbove(b, bKids, h, sep, hi, max);
    }
    SeparatorInFront(sep, b, hi);
    JoinSorted(a, [sep] + b, lo, sep, hi);
    assert a + ([sep] + b) == keys;
    forall j | 0 <= j < |kids|
      ensures KidOk(keys, kids[j], j, h, lo, hi, max, -1)
    {
      if j < |aKids| {
        assert KidOk(a, aKids[j], j, h, lo, Some(sep), max, -1);
      } else {
        assert KidOk(b, bKids[j - |aKids|], j - |aKids|, h, Some(sep), hi, max, -1);
      }
    }
  }

  // Two neighbours replaced, with a new separator between them. One of the two may have been weak.
  lemma PairReplaced<I>(keys: seq<Key>, kids: seq<Subtree<I>>, i: nat, a: Subtree<I>, sep: Key, b: Subtree<I>, h: nat,
                        lo: Option<Key>, hi: Option<Key>, max: nat, weak: int)
    requires i < |keys| && (weak == i || weak == i + 1) && KidsOk(keys, kids, h, lo, hi, max, weak)
    requires WF(a, h, LoOf(keys, lo, i), Some(sep), max / 2, max)
    requires WF(b, h, Some(sep), HiOf(keys, hi, i + 1), max / 2, max)
    requires Above(sep, LoOf(keys, lo, i)) && Below(sep, HiOf(keys, hi, i + 1))
    ensures KidsOk(keys[i := sep], kids[i := a][i + 1 := b], h, lo, hi, max, -1)
  {
    hide Less, WF;
    var keys', kids' := keys[i := sep], kids[i := a][i + 1 := b];
    RemoveSorted(keys, i, lo, hi);
    SeparatorFits(RemoveAt(keys, i), i, sep, lo, hi);
    assert InsertAt(RemoveAt(keys, i), i, sep) == keys';
    forall j | 0 <= j < |kids'|
      ensures KidOk(keys', kids'[j], j, h, lo, hi, max, -1)
    {
      assert KidOk(keys, kids[j], j, h, lo, hi, max, weak);
    }
  }

  // Two neighbours replaced by one, their separator gone.
  lemma PairMerged<I>(keys: seq<Key>, kids: seq<Subtree<I>>, i: nat, m: Subtree<I>, h: nat, lo: Option<Key>,
                      hi: Option<Key>, max: nat, weak: int)
    requires i < |keys| && (weak == i || weak == i + 1) && KidsOk(keys, kids, h, lo, hi, max, weak)
    requires WF(m, h, LoOf(keys, lo, i), HiOf(keys, hi, i + 1), max / 2, max)
    ensures KidsOk(RemoveAt(keys, i), kids[..i] + [m] + kids[i + 2..], h, lo, hi, max, -1)
  {
    hide Less, WF, AtLeast, Below;
    var keys', kids' := RemoveAt(keys, i), kids[..i] + [m] + kids[i + 2..];
    RemoveSorted(keys, i, lo, hi);
    forall j | 0 <= j < |kids'|
      ensures KidOk(keys', kids'[j], j, h, lo, hi, max, -1)
    {
      if j < i {
        assert KidOk(keys, kids[j], j, h, lo, hi, max, weak);
      } else if j > i {
        assert KidOk(keys, kids[j + 1], j + 1, h, lo, hi, max, weak);
      }
    }
  }

  // ---------- from well formed to shaped ----------

  lemma {:induction false} WFIsShaped<I>(t: Subtree<I>, h: nat, lo: Option<Key>, hi: Option<Key>, least: int, max: nat)
    requires max >= 2 && WF(t, h, lo, hi, least, max)
    ensures Shaped(t, h, 0) && (t.Leaf? || least >= 1 ==> Shaped(t, h, 1))
    decreases h
  {
    hide Less, SortedKeys, KeysIn;
    if t.Node? {
      forall i | 0 <= i < |t.kids|
        ensures Shaped(t.kids[i], h - 1, 1)
      {
        assert KidOk(t.keys, t.kids[i], i, h - 1, lo, hi, max, -1);
        WFIsShaped(t.kids[i], h - 1, LoOf(t.keys, lo, i), HiOf(t.keys, hi, i), max / 2, max);
      }
    }
  }

  // ---------- insertion ----------

  lemma LeafInsertWF(keys: seq<Key>, key: Key, lo: Option<Key>, hi: Option<Key>)
    requires SortedKeys(keys) && KeysIn(keys, lo, hi) && AtLeast(key, lo) && Below(key, hi)
    ensures var i := LeafIndex(keys, key);
            !Holds(keys, i, key) ==>
              SortedKeys(InsertAt(keys, i, key)) && KeysIn(InsertAt(keys, i, key), lo, hi)
  {
    hide Less, AtLeast, Below;
    var i := LeafIndex(keys, key);
    if !Holds(keys, i, key) {
      if i < |keys| {
        LessTotal(keys[i], key);
      }
      InsertSorted(keys, i, key, lo, hi);
    }
  }

  // The key looked for lies within the bounds of the child chosen for it.
  lemma ChildInBounds(keys: seq<Key>, key: Key, lo: Option<Key>, hi: Option<Key>)
    requires AtLeast(key, lo) && Below(key, hi)
    ensures var i := ChildIndex(keys, key);
            AtLeast(key, LoOf(keys, lo, i)) && Below(key, HiOf(keys, hi, i))
  {
  }

  ghost predicate InsertedWF<I>(r: Inserted<I>, h: nat, lo: Option<Key>, hi: Option<Key>, least: int, max: nat) {
    match r
    case Fit(t') => WF(t', h, lo, hi, least, max)
    case Split(left, sep, right) =>
      && WF(left, h, lo, Some(sep), max / 2, max) && WF(right, h, Some(sep), hi, max / 2, max)
      && Above(sep, lo) && Below(sep, hi)
  }

  lemma SplitLeafWF<I>(t: Subtree<I>, id: I, lo: Option<Key>, hi: Option<Key>, max: nat)
    requires max >= 2 && t.Leaf? && |t.rows| == |t.keys| == max + 1
    requires SortedKeys(t.keys) && KeysIn(t.keys, lo, hi)
    ensures InsertedWF(SplitLeaf(t, id), 0, lo, hi, 0, max)
  {
    hide Less;
    CutSorted(t.keys, |t.keys| / 2, lo, hi);
  }

  lemma SplitNodeWF<I>(t: Subtree<I>, id: I, h: nat, lo: Option<Key>, hi: Option<Key>, max: nat)
    requires max >= 2 && t.Node? && |t.keys| == max + 1 && h > 0 && Shaped(t, h, 1)
    requires KidsOk(t.keys, t.kids, h - 1, lo, hi, max, -1)
    ensures InsertedWF(SplitNode(t, id, h), h, lo, hi, 0, max)
  {
    hide Less, KidsOk;
    var mid := |t.keys| / 2;
    KidsAreSorted(t.keys, t.kids, h - 1, lo, hi, max, -1);
    CutSorted(t.keys, mid, lo, hi);
    KidsCut(t.keys, t.kids, mid, h - 1, lo, hi, max);
  }

  lemma KidsAreSorted<I>(keys: seq<Key>, kids: seq<Subtree<I>>, h: nat, lo: Option<Key>, hi: Option<Key>, max: nat,
                         weak: int)
    requires KidsOk(keys, kids, h, lo, hi, max, weak)
    ensures SortedKeys(keys) && KeysIn(keys, lo, hi)
  {
  }

  lemma InsertLeafWF<I>(t: Subtree<I>, key: Key, row: RowId, max: nat, id: I, lo: Option<Key>, hi: Option<Key>,
                        least: int)
    requires max >= 2 && t.Leaf? && WF(t, 0, lo, hi, least, max)
    requires AtLeast(key, lo) && Below(key, hi)
    ensures InsertedWF(InsertLeaf(t, key, row, max, id), 0, lo, hi, least, max)
  {
    hide Less, AtLeast, Below, Above, SortedKeys, KeysIn;
    LeafInsertWF(t.keys, key, lo, hi);
    var i := LeafIndex(t.keys, key);
    if !Holds(t.keys, i, key) && |t.keys| == max {
      SplitLeafWF(Leaf(t.id, InsertAt(t.keys, i, key), InsertAt(t.rows, i, row)), id, lo, hi, max);
    }
  }

  lemma AbsorbWF<I>(t: Subtree<I>, i: nat, r: Inserted<I>, max: nat, id: I, h: nat, lo: Option<Key>, hi: Option<Key>,
                    least: int)
    requires max >= 2 && t.Node? && WF(t, h, lo, hi, least, max) && Shaped(t, h, 1) && i < |t.kids|
    requires InsertedShaped(r, h - 1)
    requires InsertedWF(r, h - 1, LoOf(t.keys, lo, i), HiOf(t.keys, hi, i), max / 2, max)
    ensures InsertedWF(Absorb(t, i, r, max, id, h), h, lo, hi, least, max)
  {
    hide Less, AtLeast, Below, Above, SortedKeys, KeysIn, KidsOk;
    match r
    case Fit(kid) =>
      KidBecomes(t.keys, t.kids, i, kid, h - 1, lo, hi, max);
    case Split(left, sep, right) =>
      KidSplit(t.keys, t.kids, i, left, sep, right, h - 1, lo, hi, max);
      if |t.keys| == max {
        SplitNodeWF(GrowNode(t, i, left, sep, right), id, h, lo, hi, max);
      }
  }

  // Insertion keeps the tree well formed, for every order of at least 3 and any cascade of splits.
  lemma {:induction false} InsertWF<I>(t: Subtree<I>, key: Key, row: RowId, max: nat, supply: seq<I>, h: nat,
                                       lo: Option<Key>, hi: Option<Key>, least: int)
    requires max >= 2 && WF(t, h, lo, hi, least, max) && Shaped(t, h, 1) && |supply| > h
    requires AtLeast(key, lo) && Below(key, hi)
    ensures InsertedWF(Insert(t, key, row, max, supply, h), h, lo, hi, least, max)
    decreases h
  {
    hide Less, AtLeast, Below, SortedKeys, KeysIn, KidsOk, KidOk, InsertLeaf, Absorb, InsertedWF;
    if t.Leaf? {
      InsertLeafWF(t, key, row, max, supply[0], lo, hi, least);
    } else {
      var i := ChildIndex(t.keys, key);
      KidIsOk(t.keys, t.kids, i, h - 1, lo, hi, max);
      ChildInBounds(t.keys, key, lo, hi);
      InsertWF(t.kids[i], key, row, max, supply[..|supply| - 1], h - 1, LoOf(t.keys, lo, i), HiOf(t.keys, hi, i),
               max / 2);
      AbsorbWF(t, i, Insert(t.kids[i], key, row, max, supply[..|supply| - 1], h - 1), max, supply[|supply| - 1], h, lo,
               hi, least);
    }
  }

  lemma KidIsOk<I>(keys: seq<Key>, kids: seq<Subtree<I>>, i: nat, h: nat, lo: Option<Key>, hi: Option<Key>, max: nat)
    requires KidsOk(keys, kids, h, lo, hi, max, -1) && i <= |keys|
    ensures |kids| == |keys| + 1 && WF(kids[i], h, LoOf(keys, lo, i), HiOf(keys, hi, i), max / 2, max)
  {
    hide Less;
    assert KidOk(keys, kids[i], i, h, lo, hi, max, -1);
  }

  lemma KidBecomes<I>(keys: seq<Key>, kids: seq<Subtree<I>>, i: nat, kid: Subtree<I>, h: nat, lo: Option<Key>,
                      hi: Option<Key>, max: nat)
    requires KidsOk(keys, kids, h, lo, hi, max, -1) && i <= |keys|
    requires WF(kid, h, LoOf(keys, lo, i), HiOf(keys, hi, i), max / 2, max)
    ensures |kids| == |keys| + 1 && KidsOk(keys, kids[i := kid], h, lo, hi, max, -1)
  {
    hide Less;
    KidReplaced(keys, kids, i, kid, h, lo, hi, max, -1);
  }

  // ---------- deletion ----------

  lemma LeafBorrowLeft(left: seq<Key>, child: seq<Key>, lo: Option<Key>, sep: Key, hi: Option<Key>)
    requires |left| > 1 && SortedKeys(left) && KeysIn(left, lo, Some(sep))
    requires SortedKeys(child) && KeysIn(child, Some(sep), hi) && Below(sep, hi)
    ensures var k := left[|left| - 1];
            && SortedKeys(left[..|left| - 1]) && KeysIn(left[..|left| - 1], lo, Some(k))
            && SortedKeys([k] + child) && KeysIn([k] + child, Some(k), hi)
            && Above(k, lo) && Below(k, hi)
  {
    hide Less;
    var last := |left| - 1;
    CutSorted(left, last, lo, Some(sep));
    assert left[last..] == [left[last]];
    Order3(left[last], sep, sep);
    JoinSorted(left[last..], child, Some(left[last]), sep, hi);
    if hi.Some? {
      LessTransitive(left[last], sep, hi.value);
    }
  }

  lemma LeafBorrowRight(child: seq<Key>, right: seq<Key>, lo: Option<Key>, sep: Key, hi: Option<Key>)
    requires |right| > 1 && SortedKeys(right) && KeysIn(right, Some(sep), hi)
    requires SortedKeys(child) && KeysIn(child, lo, Some(sep)) && AtLeast(sep, lo)
    ensures var k := right[1];
            && SortedKeys(child + [right[0]]) && KeysIn(child + [right[0]], lo, Some(k))
            && SortedKeys(right[1..]) && KeysIn(right[1..], Some(k), hi)
            && Above(k, lo) && Below(k, hi)
  {
    hide Less;
    CutSorted(right, 1, Some(sep), hi);
    assert right[..1] == [right[0]];
    Order3(sep, right[0], right[1]);
    JoinSorted(child, right[..1], lo, sep, Some(right[1]));
    if lo.Some? {
      Order3(lo.value, sep, right[1]);
    }
  }

  lemma NodeBorrowLeft<I>(left: Subtree<I>, child: Subtree<I>, h: nat, lo: Option<Key>, sep: Key, hi: Option<Key>,
                          max: nat)
    requires max >= 2 && h > 0 && left.Node? && child.Node? && |left.keys| > 0
    requires KidsOk(left.keys, left.kids, h - 1, lo, Some(sep), max, -1)
    requires KidsOk(child.keys, child.kids, h - 1, Some(sep), hi, max, -1) && Below(sep, hi)
    ensures var last := |left.keys| - 1;
            var k := left.keys[last];
            && |left.kids| == last + 2
            && KidsOk(left.keys[..last], left.kids[..last + 1], h - 1, lo, Some(k), max, -1)
            && KidsOk([sep] + child.keys, [left.kids[last + 1]] + child.kids, h - 1, Some(k), hi, max, -1)
            && (last > 0 ==> Above(k, lo)) && Below(k, hi)
  {
    hide Less, WF, KidOk;
    var last := |left.keys| - 1;
    var k := left.keys[last];
    CutSorted(left.keys, last, lo, Some(sep));
    KidsCut(left.keys, left.kids, last, h - 1, lo, Some(sep), max);
    assert left.keys[last + 1..] == [] && left.kids[last + 1..] == [left.kids[last + 1]];
    Order3(k, sep, sep);
    KidsJoin([], [left.kids[last + 1]], sep, child.keys, child.kids, h - 1, Some(k), hi, max);
    assert [] + [sep] + child.keys == [sep] + child.keys;
    if hi.Some? {
      LessTransitive(k, sep, hi.value);
    }
  }

  lemma NodeBorrowRight<I>(child: Subtree<I>, right: Subtree<I>, h: nat, lo: Option<Key>, sep: Key, hi: Option<Key>,
                           max: nat)
    requires max >= 2 && h > 0 && right.Node? && child.Node? && |right.keys| > 0
    requires KidsOk(child.keys, child.kids, h - 1, lo, Some(sep), max, -1)
    requires KidsOk(right.keys, right.kids, h - 1, Some(sep), hi, max, -1) && AtLeast(sep, lo)
    ensures var k := right.keys[0];
            && |right.kids| == |right.keys| + 1
            && KidsOk(child.keys + [sep], child.kids + [right.kids[0]], h - 1, lo, Some(k), max, -1)
            && KidsOk(right.keys[1..], right.kids[1..], h - 1, Some(k), hi, max, -1)
            && Above(k, lo) && Below(k, hi)
  {
    hide Less, WF, KidOk;
    var k := right.keys[0];
    KidsCut(right.keys, right.kids, 0, h - 1, Some(sep), hi, max);
    assert right.keys[..0] == [] && right.kids[..1] == [right.kids[0]];
    FirstKeyAbove(right.keys, right.kids, h - 1, sep, hi, max);
    KidsJoin(child.keys, child.kids, sep, [], [right.kids[0]], h - 1, lo, Some(k), max);
    assert child.keys + [sep] + [] == child.keys + [sep];
    if lo.Some? {
      Order3(lo.value, sep, k);
    }
  }

  // p with children well formed but for the i-th, which is short of one key.
  ghost predicate WeakAt<I>(p: Subtree<I>, i: nat, h: nat, lo: Option<Key>, hi: Option<Key>, max: nat) {
    p.Node? && h > 0 && i < |p.kids| && KidsOk(p.keys, p.kids, h - 1, lo, hi, max, i)
  }

  ghost predicate RepairedWF<I>(r: Subtree<I>, h: nat, lo: Option<Key>, hi: Option<Key>, max: nat) {
    r.Node? && h > 0 && KidsOk(r.keys, r.kids, h - 1, lo, hi, max, -1)
  }

  // What is known of two neighbours and the separator between them.
  lemma Neighbours<I>(p: Subtree<I>, i: nat, weak: nat, h: nat, lo: Option<Key>, hi: Option<Key>, max: nat)
    requires WeakAt(p, weak, h, lo, hi, max) && i < |p.keys| && (weak == i || weak == i + 1)
    ensures |p.kids| == |p.keys| + 1
    ensures WF(p.kids[i], h - 1, LoOf(p.keys, lo, i), Some(p.keys[i]), if weak == i then max / 2 - 1 else max / 2, max)
    ensures WF(p.kids[i + 1], h - 1, Some(p.keys[i]), HiOf(p.keys, hi, i + 1), if weak ==
               i + 1 then max / 2 - 1 else max / 2, max)
    ensures AtLeast(p.keys[i], LoOf(p.keys, lo, i)) && Below(p.keys[i], HiOf(p.keys, hi, i + 1))
  {
    hide Less, WF;
    assert KidOk(p.keys, p.kids[i], i, h - 1, lo, hi, max, weak);
    assert KidOk(p.keys, p.kids[i + 1], i + 1, h - 1, lo, hi, max, weak);
    if i > 0 {
      Order3(p.keys[i - 1], p.keys[i], p.keys[i]);
    }
  }

  lemma BorrowFromLeftWF<I>(p: Subtree<I>, i: nat, h: nat, lo: Option<Key>, hi: Option<Key>, max: nat)
    requires max >= 2 && Wanting(p, i, h) && WeakAt(p, i, h, lo, hi, max)
    requires |p.kids[i].keys| < max / 2 && i > 0 && |p.kids[i - 1].keys| > max / 2
    ensures RepairedWF(BorrowFromLeft(p, i, h), h, lo, hi, max)
  {
    hide Less, AtLeast, Below, Above, SortedKeys, KeysIn, KidsOk, KidOk, LoOf, HiOf, Shaped;
    var left, child := p.kids[i - 1], p.kids[i];
    var last := |left.keys| - 1;
    var low, sep, high := LoOf(p.keys, lo, i - 1), p.keys[i - 1], HiOf(p.keys, hi, i);
    Neighbours(p, i - 1, i, h, lo, hi, max);
    var q := BorrowFromLeft(p, i, h);
    if child.Leaf? {
      LeafBorrowLeft(left.keys, child.keys, low, sep, high);
      PairReplaced(p.keys, p.kids, i - 1, q.kids[i - 1], left.keys[last], q.kids[i], h - 1, lo, hi, max, i);
    } else {
      NodeBorrowLeft(left, child, h - 1, low, sep, high, max);
      PairReplaced(p.keys, p.kids, i - 1, q.kids[i - 1], left.keys[last], q.kids[i], h - 1, lo, hi, max, i);
    }
  }

  lemma BorrowFromRightWF<I>(p: Subtree<I>, i: nat, h: nat, lo: Option<Key>, hi: Option<Key>, max: nat)
    requires max >= 2 && Wanting(p, i, h) && WeakAt(p, i, h, lo, hi, max)
    requires |p.kids[i].keys| < max / 2 && i + 1 < |p.kids| && |p.kids[i + 1].keys| > max / 2
    ensures RepairedWF(BorrowFromRight(p, i, h), h, lo, hi, max)
  {
    hide Less, AtLeast, Below, Above, SortedKeys, KeysIn, KidsOk, KidOk, LoOf, HiOf, Shaped;
    var child, right := p.kids[i], p.kids[i + 1];
    var low, sep, high := LoOf(p.keys, lo, i), p.keys[i], HiOf(p.keys, hi, i + 1);
    Neighbours(p, i, i, h, lo, hi, max);
    var q := BorrowFromRight(p, i, h);
    if child.Leaf? {
      LeafBorrowRight(child.keys, right.keys, low, sep, high);
      PairReplaced(p.keys, p.kids, i, q.kids[i], right.keys[1], q.kids[i + 1], h - 1, lo, hi, max, i);
    } else {
      NodeBorrowRight(child, right, h - 1, low, sep, high, max);
      PairReplaced(p.keys, p.kids, i, q.kids[i], right.keys[0], q.kids[i + 1], h - 1, lo, hi, max, i);
    }
  }

  lemma MergeWF<I>(p: Subtree<I>, i: nat, weak: nat, h: nat, lo: Option<Key>, hi: Option<Key>, max: nat)
    requires max >= 2 && Wanting(p, weak, h) && WeakAt(p, weak, h, lo, hi, max)
    requires i < |p.keys| && (weak == i || weak == i + 1)
    requires |p.kids[weak].keys| < max / 2 && |p.kids[i].keys| + |p.kids[i + 1].keys| < max / 2 * 2
    ensures RepairedWF(Merge(p, i, h), h, lo, hi, max)
  {
    hide Less, AtLeast, Below, Above, SortedKeys, KeysIn, KidsOk, KidOk, LoOf, HiOf, Shaped;
    var left, right := p.kids[i], p.kids[i + 1];
    var low, sep, high := LoOf(p.keys, lo, i), p.keys[i], HiOf(p.keys, hi, i + 1);
    Neighbours(p, i, weak, h, lo, hi, max);
    var q := Merge(p, i, h);
    if left.Leaf? {
      JoinSorted(left.keys, right.keys, low, sep, high);
    } else {
      KidsJoin(left.keys, left.kids, sep, right.keys, right.kids, h - 2, low, high, max);
    }
    assert q.kids[i] == (p.kids[..i] + [q.kids[i]] + p.kids[i + 2..])[i];
    PairMerged(p.keys, p.kids, i, q.kids[i], h - 1, lo, hi, max, weak);
  }

  lemma RepairWF<I>(p: Subtree<I>, i: nat, h: nat, lo: Option<Key>, hi: Option<Key>, max: nat)
    requires max >= 2 && Wanting(p, i, h) && WeakAt(p, i, h, lo, hi, max) && |p.kids[i].keys| < max / 2
    ensures RepairedWF(Repair(p, i, max / 2, h), h, lo, hi, max)
  {
    hide Less, KidsOk, Shaped, BorrowFromLeft, BorrowFromRight, Merge, RepairedWF, WeakAt;
    var min := max / 2;
    if i > 0 && |p.kids[i - 1].keys| > min {
      BorrowFromLeftWF(p, i, h, lo, hi, max);
    } else if i < |p.kids| - 1 && |p.kids[i + 1].keys| > min {
      BorrowFromRightWF(p, i, h, lo, hi, max);
    } else if i > 0 {
      MergeWF(p, i - 1, i, h, lo, hi, max);
    } else {
      MergeWF(p, i, i, h, lo, hi, max);
    }
  }

  // A node whose i-th child has been through a deletion.
  lemma DeletedKidWF<I>(t: Subtree<I>, i: nat, kid: Subtree<I>, h: nat, lo: Option<Key>, hi: Option<Key>, least: int,
                        max: nat)
    requires max >= 2 && t.Node? && WF(t, h, lo, hi, least, max) && Shaped(t, h, 1) && i < |t.kids|
    requires Shaped(kid, h - 1, 0) && |kid.keys| + 1 >= |t.kids[i].keys|
    requires WF(kid, h - 1, LoOf(t.keys, lo, i), HiOf(t.keys, hi, i), max / 2 - 1, max)
    ensures WF(AfterDelete(t, i, kid, max / 2, h), h, lo, hi, least - 1, max)
  {
    hide Less, KidsOk, Shaped, Repair, AtLeast, Below, SortedKeys, KeysIn;
    var p := Node(t.id, t.keys, t.kids[i := kid]);
    AfterDeleteIsWanting(t, i, kid, h);
    WeakKid(t.keys, t.kids, i, kid, h - 1, lo, hi, max);
    if |kid.keys| < max / 2 {
      RepairWF(p, i, h, lo, hi, max);
    }
  }

  lemma WeakKid<I>(keys: seq<Key>, kids: seq<Subtree<I>>, i: nat, kid: Subtree<I>, h: nat, lo: Option<Key>,
                   hi: Option<Key>, max: nat)
    requires KidsOk(keys, kids, h, lo, hi, max, -1) && i <= |keys|
    requires WF(kid, h, LoOf(keys, lo, i), HiOf(keys, hi, i), max / 2 - 1, max)
    ensures |kids| == |keys| + 1 && KidsOk(keys, kids[i := kid], h, lo, hi, max, i)
    ensures |kid.keys| >= max / 2 ==> KidsOk(keys, kids[i := kid], h, lo, hi, max, -1)
  {
    hide Less, AtLeast, Below, SortedKeys, KeysIn;
    assert KidOk(keys, kid, i, h, lo, hi, max, i);
    KidReplaced(keys, kids, i, kid, h, lo, hi, max, i);
    if |kid.keys| >= max / 2 {
      assert KidOk(keys, kid, i, h, lo, hi, max, -1);
      KidReplaced(keys, kids, i, kid, h, lo, hi, max, -1);
    }
  }

  // Deletion keeps the tree well formed, for every order of at least 3 and any cascade of borrows and merges; the
  // top node may lose a key.
  lemma {:induction false} DeleteWF<I>(t: Subtree<I>, key: Key, h: nat, lo: Option<Key>, hi: Option<Key>, least: int,
                                       max: nat)
    requires max >= 2 && WF(t, h, lo, hi, least, max) && Shaped(t, h, 1)
    ensures var r := Delete(t, key, max / 2, h);
            r.Some? ==> WF(r.value, h, lo, hi, least - 1, max)
    decreases h
  {
    hide Less, AtLeast, Below, SortedKeys, KeysIn, KidsOk, KidOk, AfterDelete;
    var i := if t.Leaf? then LeafIndex(t.keys, key) else ChildIndex(t.keys, key);
    if t.Leaf? {
      if Holds(t.keys, i, key) {
        RemoveSorted(t.keys, i, lo, hi);
      }
    } else {
      KidIsOk(t.keys, t.kids, i, h - 1, lo, hi, max);
      DeleteWF(t.kids[i], key, h - 1, LoOf(t.keys, lo, i), HiOf(t.keys, hi, i), max / 2, max);
      var r := Delete(t.kids[i], key, max / 2, h - 1);
      if r.Some? {
        DeletedKidWF(t, i, r.value, h, lo, hi, least, max);
      }
    }
  }

  // ---------- whole trees ----------

  // Put on a tree: what Put of internal/btree makes of its root. A split of the root puts a new root above it.
  function PutRoot<I>(t: Subtree<I>, key: Key, row: RowId, max: nat, supply: seq<I>, ghost h: nat): Subtree<I>
    requires max >= 2 && Shaped(t, h, 1) && |supply| > h + 1
  {
    match Insert(t, key, row, max, supply[..|supply| - 1], h)
    case Fit(t') => t'
    case Split(left, sep, right) => Node(supply[|supply| - 1], [sep], [left, right])
  }

  // How many levels the tree has above its leaves after Put.
  ghost function PutHeight<I>(t: Subtree<I>, key: Key, row: RowId, max: nat, supply: seq<I>, h: nat): nat
    requires max >= 2 && Shaped(t, h, 1) && |supply| > h + 1
  {
    if Insert(t, key, row, max, supply[..|supply| - 1], h).Fit? then h else h + 1
  }

  // Delete on a tree: a root left without a key gives way to its only child.
  function DeleteRoot<I>(t: Subtree<I>, key: Key, min: nat, ghost h: nat): Option<Subtree<I>>
    requires min >= 1 && Shaped(t, h, 1)
  {
    match Delete(t, key, min, h)
    case None => None
    case Some(t') => Some(if t'.Node? && |t'.keys| == 0 then t'.kids[0] else t')
  }

  ghost function DeleteHeight<I>(t: Subtree<I>, key: Key, min: nat, h: nat): nat
    requires min >= 1 && Shaped(t, h, 1)
  {
    match Delete(t, key, min, h)
    case None => h
    case Some(t') => if t'.Node? && |t'.keys| == 0 then h - 1 else h
  }

  lemma WholeIsShaped<I>(t: Subtree<I>, h: nat, max: nat)
    requires max >= 2 && WholeTree(t, h, max)
    ensures Shaped(t, h, 1)
  {
    WFIsShaped(t, h, None, None, if t.Leaf? then 0 else 1, max);
  }

  // Put raises the height by at most one level, and only by splitting the root.
  lemma PutKeepsWhole<I>(t: Subtree<I>, key: Key, row: RowId, max: nat, supply: seq<I>, h: nat)
    requires max >= 2 && WholeTree(t, h, max) && Shaped(t, h, 1) && |supply| > h + 1
    ensures WholeTree(PutRoot(t, key, row, max, supply, h), PutHeight(t, key, row, max, supply, h), max)
  {
    hide Less, Insert, SortedKeys, KeysIn;
    var least := if t.Leaf? then 0 else 1;
    InsertWF(t, key, row, max, supply[..|supply| - 1], h, None, None, least);
    InsertKeepsKind(t, key, row, max, supply[..|supply| - 1], h);
    match Insert(t, key, row, max, supply[..|supply| - 1], h)
    case Fit(_) =>
    case Split(left, sep, right) =>
      NewRootWF(left, sep, right, h, max);
  }

  lemma InsertKeepsKind<I>(t: Subtree<I>, key: Key, row: RowId, max: nat, supply: seq<I>, h: nat)
    requires max >= 2 && Shaped(t, h, 1) && |supply| > h
    ensures var r := Insert(t, key, row, max, supply, h); r.Fit? ==> r.t.Leaf? == t.Leaf?
  {
  }

  lemma NewRootWF<I>(left: Subtree<I>, sep: Key, right: Subtree<I>, h: nat, max: nat)
    requires max >= 2 && InsertedWF(Split(left, sep, right), h, None, None, 0, max)
    ensures KidsOk([sep], [left, right], h, None, None, max, -1)
  {
    hide Less, WF;
    var keys, kids := [sep], [left, right];
    forall j | 0 <= j < |kids|
      ensures KidOk(keys, kids[j], j, h, None, None, max, -1)
    {
    }
  }

  // One collapse is enough: the child that takes the root's place has keys of its own.
  lemma DeleteKeepsWhole<I>(t: Subtree<I>, key: Key, max: nat, h: nat)
    requires max >= 2 && WholeTree(t, h, max) && Shaped(t, h, 1)
    ensures var r := DeleteRoot(t, key, max / 2, h);
            r.Some? ==> WholeTree(r.value, DeleteHeight(t, key, max / 2, h), max)
  {
    hide Less, SortedKeys, KeysIn;
    var least := if t.Leaf? then 0 else 1;
    DeleteWF(t, key, h, None, None, least, max);
    var r := Delete(t, key, max / 2, h);
    if r.Some? && r.value.Node? && |r.value.keys| == 0 {
      KidIsOk(r.value.keys, r.value.kids, 0, h - 1, None, None, max);
    }
  }
}
