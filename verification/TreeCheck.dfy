// Validate: it accepts exactly the well-formed trees with an unbroken leaf chain, and halts whatever the nodes are:
// shared, running in a circle through their children, or through their next links.
module TreeCheck {
  import opened ByteOrder
  import opened Outcomes
  import opened BTreeInvariant
  import opened LinkedNodes
  import opened LeafChain
  import M = BTreeModel

  // The levels below the top, along the leftmost path.
  ghost function Depth(s: Shape): nat
    decreases s
  {
    if s.Leaf? || s.kids == [] then 0 else 1 + Depth(s.kids[0])
  }

  lemma {:induction false} WFDepth(s: Shape, h: nat, lo: Option<Key>, hi: Option<Key>, least: int, max: nat)
    requires WF(s, h, lo, hi, least, max)
    ensures h == Depth(s)
    decreases h
  {
    hide Less, SortedKeys, KeysIn;
    if s.Node? {
      KidIsOk(s.keys, s.kids, 0, h - 1, lo, hi, max);
      WFDepth(s.kids[0], h - 1, LoOf(s.keys, lo, 0), HiOf(s.keys, hi, 0), max / 2, max);
    }
  }

  // Neighbours in order is enough.
  method CheckOrder(keys: seq<Key>) returns (ok: bool)
    ensures ok <==> SortedKeys(keys)
  {
    hide Less;
    var i := 1;
    while i < |keys|
      invariant 1 <= i && (i <= |keys| || |keys| == 0)
      invariant forall j, k :: 0 <= j < k < i && k < |keys| ==> Less(keys[j], keys[k])
    {
      if !Less(keys[i - 1], keys[i]) {
        return false;
      }
      forall j | 0 <= j < i
        ensures Less(keys[j], keys[i])
      {
        if j < i - 1 {
          LessTransitive(keys[j], keys[i - 1], keys[i]);
        }
      }
      i := i + 1;
    }
    return true;
  }

  method CheckBounds(keys: seq<Key>, low: Option<Key>, high: Option<Key>) returns (ok: bool)
    ensures ok <==> KeysIn(keys, low, high)
  {
    hide Less;
    for i := 0 to |keys|
      invariant forall j :: 0 <= j < i ==> AtLeast(keys[j], low) && Below(keys[j], high)
    {
      if low.Some? && Less(keys[i], low.value) {
        return false;
      }
      if high.Some? && !Less(keys[i], high.value) {
        return false;
      }
    }
    return true;
  }

  // The level of the leaves is -1 until the first leaf has set it.
  ghost predicate Agrees(leafDepth: int, d: int) {
    leafDepth == -1 || leafDepth == d
  }

  ghost function Least(s: Shape, isRoot: bool, max: nat): nat {
    if !isRoot then max / 2 else if s.Leaf? then 0 else 1
  }

  // The subtree is well formed and its leaves are where those before it were.
  ghost predicate Passes(s: Shape, level: nat, leafDepth: int, low: Option<Key>, high: Option<Key>, isRoot: bool,
                         max: nat)
  {
    WF(s, Depth(s), low, high, Least(s, isRoot, max), max) && Agrees(leafDepth, level + Depth(s))
  }

  lemma UnfoldsTop(s: Shape)
    requires Unfolds(s)
    ensures s.id.leaf == s.Leaf? && s.id.keys == s.keys
    ensures s.Leaf? ==> s.id.rows == s.rows
    ensures s.Node? ==> s.id.children == Heads(s.kids)
  {
  }

  lemma WFTop(s: Shape, h: nat, lo: Option<Key>, hi: Option<Key>, least: int, max: nat)
    ensures WF(s, h, lo, hi, least, max) <==>
            && SortedKeys(s.keys) && KeysIn(s.keys, lo, hi) && least <= |s.keys| <= max
            && if s.Leaf? then h == 0 && |s.rows| == |s.keys|
               else h > 0 && |s.kids| == |s.keys| + 1 && KidsOk(s.keys, s.kids, h - 1, lo, hi, max, -1)
  {
  }

  // ---------- circles ----------

  // A finite part of the heap that going down does not leave.
  ghost predicate DownClosed(all: set<Node>)
    reads all
  {
    forall n :: n in all && !n.leaf ==> Inner(n, all)
  }

  ghost predicate Inner(n: Node, all: set<Node>)
    reads n
  {
    forall i :: 0 <= i < |n.children| ==> n.children[i] in all
  }

  // The nodes of a shape are such a part.
  lemma {:induction false} UnfoldsWithin(s: Shape, all: set<Node>)
    requires Unfolds(s) && Ids(s) <= all
    ensures forall n :: n in Ids(s) && !n.leaf ==> Inner(n, all)
    decreases s
  {
    hide Unfolds, Ids, IdsAll;
    UnfoldsTop(s);
    forall n | n in Ids(s) && !n.leaf
      ensures Inner(n, all)
    {
      if n == s.id {
        forall i | 0 <= i < |n.children|
          ensures n.children[i] in all
        {
          ChildIn(s, i);
        }
      } else {
        IdsTop(s);
        var i := InSome(s.kids, n);
        ChildIn(s, i);
        UnfoldsChild(s, i);
        UnfoldsWithin(s.kids[i], all);
      }
    }
  }

  lemma IdsTop(s: Shape)
    ensures Ids(s) == {s.id} + if s.Node? then IdsAll(s.kids) else {}
  {
  }

  lemma UnfoldsIsClosed(s: Shape)
    requires Unfolds(s)
    ensures DownClosed(Ids(s)) && s.id in Ids(s)
  {
    UnfoldsWithin(s, Ids(s));
  }

  // No key fits.
  ghost predicate Void(low: Option<Key>, high: Option<Key>) {
    low.Some? && high.Some? && !Less(low.value, high.value)
  }

  // Met again within these bounds, a node with these keys fails them, or its first key is the lower bound.
  ghost predicate Spent(keys: seq<Key>, low: Option<Key>, high: Option<Key>) {
    keys != [] && (KeysIn(keys, low, high) ==> low == Some(keys[0]))
  }

  ghost predicate AllSpent(above: set<Node>, low: Option<Key>, high: Option<Key>)
    reads above
  {
    forall a :: a in above ==> Spent(a.keys, low, high)
  }

  // Bounds only tighten on the way down, so what is spent stays spent.
  lemma SpentBelow(ks: seq<Key>, keys: seq<Key>, i: nat, low: Option<Key>, high: Option<Key>)
    requires Spent(ks, low, high) && KeysIn(keys, low, high) && i <= |keys|
    ensures Spent(ks, LoOf(keys, low, i), HiOf(keys, high, i))
  {
    hide Less;
    if KeysIn(ks, LoOf(keys, low, i), HiOf(keys, high, i)) {
      KeysWiden(ks, keys, i, low, high);
      assert AtLeast(ks[0], LoOf(keys, low, i));
      if i > 0 {
        assert AtLeast(keys[i - 1], low);
        Order3(keys[i - 1], ks[0], keys[i - 1]);
      }
    }
  }

  lemma SpentHere(keys: seq<Key>, i: nat, low: Option<Key>, high: Option<Key>)
    requires keys != [] && SortedKeys(keys) && i <= |keys|
    ensures Spent(keys, LoOf(keys, low, i), HiOf(keys, high, i))
  {
    hide Less;
    if KeysIn(keys, LoOf(keys, low, i), HiOf(keys, high, i)) {
      assert AtLeast(keys[0], LoOf(keys, low, i)) && Below(keys[0], HiOf(keys, high, i));
      Order3(keys[0], keys[0], keys[0]);
    }
  }

  // Met again and within bounds, a node leaves no room to its first child.
  lemma SpentIsVoid(keys: seq<Key>, low: Option<Key>, high: Option<Key>)
    requires Spent(keys, low, high) && KeysIn(keys, low, high)
    ensures Void(LoOf(keys, low, 0), HiOf(keys, high, 0))
  {
    LessIrreflexive(keys[0]);
  }

  lemma VoidHasNoKey(keys: seq<Key>, low: Option<Key>, high: Option<Key>)
    requires KeysIn(keys, low, high) && keys != []
    ensures !Void(low, high)
  {
    hide Less;
    assert AtLeast(keys[0], low) && Below(keys[0], high);
    if low.Some? && high.Some? {
      Order3(low.value, keys[0], high.value);
    }
  }

  // How far down there still is to go: to nodes not met yet, and once more to one that has been.
  ghost function Room(all: set<Node>, above: set<Node>, low: Option<Key>, high: Option<Key>): nat {
    if Void(low, high) then 0 else 1 + |all - above|
  }

  lemma LessRoom(all: set<Node>, above: set<Node>, n: Node, i: nat, low: Option<Key>, high: Option<Key>)
    requires n in all && i <= |n.keys| && KeysIn(n.keys, low, high) && !Void(low, high)
    requires AllSpent(above, low, high) && (n in above ==> i == 0)
    ensures Room(all, above + {n}, LoOf(n.keys, low, i), HiOf(n.keys, high, i)) < Room(all, above, low, high)
    ensures n in above ==> Void(LoOf(n.keys, low, i), HiOf(n.keys, high, i))
  {
    hide Less, KeysIn;
    if n in above {
      SpentIsVoid(n.keys, low, high);
    } else {
      assert all - above == (all - (above + {n})) + {n};
    }
  }

  lemma AllSpentBelow(above: set<Node>, n: Node, i: nat, low: Option<Key>, high: Option<Key>)
    requires AllSpent(above, low, high) && n.keys != [] && SortedKeys(n.keys) && KeysIn(n.keys, low, high)
    requires i <= |n.keys|
    ensures AllSpent(above + {n}, LoOf(n.keys, low, i), HiOf(n.keys, high, i))
  {
    hide Less, Spent, SortedKeys, KeysIn, LoOf, HiOf;
    SpentHere(n.keys, i, low, high);
    forall a | a in above
      ensures Spent(a.keys, LoOf(n.keys, low, i), HiOf(n.keys, high, i))
    {
      SpentBelow(a.keys, n.keys, i, low, high);
    }
  }

  // ---------- the recursive check ----------

  // What every shape that passes at n shows in n itself.
  lemma PassesTop(t: Shape, level: nat, leafDepth: int, low: Option<Key>, high: Option<Key>, isRoot: bool, max: nat)
    requires max >= 2 && Unfolds(t) && Passes(t, level, leafDepth, low, high, isRoot, max)
    ensures var n := t.id;
            && SortedKeys(n.keys) && KeysIn(n.keys, low, high) && |n.keys| <= max
            && (!isRoot ==> |n.keys| >= max / 2)
            && if n.leaf then |n.rows| == |n.keys| && Agrees(leafDepth, level)
               else t.Node? && |n.children| == |n.keys| + 1 && (isRoot ==> |n.children| >= 2)
    ensures !isRoot ==> !Void(low, high)
  {
    hide Less, SortedKeys, KeysIn, Unfolds, Ids, WF, KidsOk, Void;
    UnfoldsTop(t);
    WFTop(t, Depth(t), low, high, Least(t, isRoot, max), max);
    if !isRoot {
      VoidHasNoKey(t.keys, low, high);
    }
  }

  // The node on its own, before its children are looked at.
  ghost predicate TopOk(n: Node, low: Option<Key>, high: Option<Key>, isRoot: bool, max: nat)
    reads n
  {
    && SortedKeys(n.keys) && KeysIn(n.keys, low, high) && |n.keys| <= max
    && (!isRoot ==> |n.keys| >= max / 2)
  }

  ghost predicate NodeOk(n: Node, level: nat, leafDepth: int, low: Option<Key>, high: Option<Key>, isRoot: bool,
                         max: nat)
    reads n
  {
    && TopOk(n, low, high, isRoot, max)
    && if n.leaf then |n.rows| == |n.keys| && Agrees(leafDepth, level)
       else |n.children| == |n.keys| + 1 && (isRoot ==> |n.children| >= 2)
  }

  lemma NothingPasses(n: Node, level: nat, leafDepth: int, low: Option<Key>, high: Option<Key>, isRoot: bool, max: nat)
    requires max >= 2
    ensures !NodeOk(n, level, leafDepth, low, high, isRoot, max) ==>
              forall t: Shape :: t.id == n && Unfolds(t) ==> !Passes(t, level, leafDepth, low, high, isRoot, max)
  {
    hide Less, SortedKeys, KeysIn, Unfolds, Passes;
    forall t: Shape | t.id == n && Unfolds(t) && Passes(t, level, leafDepth, low, high, isRoot, max)
      ensures NodeOk(n, level, leafDepth, low, high, isRoot, max)
    {
      PassesTop(t, level, leafDepth, low, high, isRoot, max);
    }
  }

  // Halts on any nodes, circles included, and passes exactly if n is the top of a tree of nodes that passes.
  method Check(n: Node, level: nat, leafDepth: int, low: Option<Key>, high: Option<Key>, isRoot: bool, max: nat,
               min: nat, ghost all: set<Node>, ghost above: set<Node>)
    returns (ok: bool, leafDepth': int, ghost s: Option<Shape>)
    requires max >= 2 && min == max / 2 && leafDepth >= -1
    requires n in all && DownClosed(all) && AllSpent(above, low, high)
    ensures ok <==> s.Some?
    ensures ok ==>
              && s.value.id == n && Unfolds(s.value) && leafDepth' == level + Depth(s.value)
              && Passes(s.value, level, leafDepth, low, high, isRoot, max)
    ensures !ok ==>
              forall t: Shape :: t.id == n && Unfolds(t) ==> !Passes(t, level, leafDepth, low, high, isRoot, max)
    decreases Room(all, above, low, high), 1
  {
    hide Less, SortedKeys, KeysIn, Unfolds, Ids, WF, KidsOk, Passes, AllSpent, Void;
    leafDepth', s := leafDepth, None;
    ok := CheckOrder(n.keys);
    if !ok {
      NothingPasses(n, level, leafDepth, low, high, isRoot, max);
      return false, leafDepth, None;
    }
    ok := CheckBounds(n.keys, low, high);
    NothingPasses(n, level, leafDepth, low, high, isRoot, max);
    if !ok || |n.keys| > max || (!isRoot && |n.keys| < min) {
      return false, leafDepth, None;
    }
    if n.leaf {
      if |n.rows| != |n.keys| {
        return false, leafDepth, None;
      }
      if leafDepth == -1 {
        leafDepth' := level;
      } else if leafDepth != level {
        return false, leafDepth, None;
      }
      LeafPasses(n, level, leafDepth, low, high, isRoot, max);
      return true, leafDepth', Some(M.Leaf(n, n.keys, n.rows));
    }
    if |n.children| != |n.keys| + 1 || (isRoot && |n.children| < 2) {
      return false, leafDepth, None;
    }
    VoidHasNoKey(n.keys, low, high);
    ok, leafDepth', s := CheckChildren(n, level, leafDepth, low, high, isRoot, max, min, all, above);
  }

  lemma LeafPasses(n: Node, level: nat, leafDepth: int, low: Option<Key>, high: Option<Key>, isRoot: bool, max: nat)
    requires n.leaf && TopOk(n, low, high, isRoot, max) && |n.rows| == |n.keys| && Agrees(leafDepth, level)
    ensures var s := M.Leaf(n, n.keys, n.rows);
            s.id == n && Unfolds(s) && Depth(s) == 0 && Passes(s, level, leafDepth, low, high, isRoot, max)
  {
    hide Less, SortedKeys, KeysIn;
  }

  method CheckChildren(n: Node, level: nat, leafDepth: int, low: Option<Key>, high: Option<Key>, isRoot: bool,
                       max: nat, min: nat, ghost all: set<Node>, ghost above: set<Node>)
    returns (ok: bool, leafDepth': int, ghost s: Option<Shape>)
    requires max >= 2 && min == max / 2 && leafDepth >= -1
    requires n in all && DownClosed(all) && AllSpent(above, low, high) && !Void(low, high)
    requires !n.leaf && TopOk(n, low, high, isRoot, max) && n.keys != [] && |n.children| == |n.keys| + 1
    ensures ok <==> s.Some?
    ensures ok ==>
              && s.value.id == n && Unfolds(s.value) && leafDepth' == level + Depth(s.value)
              && Passes(s.value, level, leafDepth, low, high, isRoot, max)
    ensures !ok ==>
              forall t: Shape :: t.id == n && Unfolds(t) ==> !Passes(t, level, leafDepth, low, high, isRoot, max)
    decreases Room(all, above, low, high), 0
  {
    hide Less, SortedKeys, KeysIn, Unfolds, UnfoldsAll, Ids, IdsAll, WF, KidsOk, KidOk, Passes, AllSpent, Void, Spent,
      Depth, Heads, Agrees, Room, LoOf, HiOf;
    leafDepth', s := leafDepth, None;
    ghost var kids: seq<Shape>, d: nat := [], 0;
    NoKids(n);
    for i := 0 to |n.children|
      invariant |kids| == i && UnfoldsAll(kids) && Heads(kids) == n.children[..i]
      invariant i > 0 ==> n !in above && d == Depth(kids[0])
      invariant forall j :: 0 <= j < i ==> KidOk(n.keys, kids[j], j, d, low, high, max, -1)
      invariant leafDepth' == if i == 0 then leafDepth else level + 1 + d
      invariant i > 0 ==> Agrees(leafDepth, level + 1 + d)
    {
      var childLow, childHigh := low, high;
      if i > 0 {
        childLow := Some(n.keys[i - 1]);
      }
      if i < |n.keys| {
        childHigh := Some(n.keys[i]);
      }
      ChildBounds(n.keys, i, low, high);
      AllSpentBelow(above, n, i, low, high);
      LessRoom(all, above, n, i, low, high);
      assert Inner(n, all);
      assert allocated(IdsAll(kids));
      var was := leafDepth';
      ghost var k;
      ok, leafDepth', k := Check(n.children[i], level + 1, was, childLow, childHigh, false, max, min, all, above + {n});
      if !ok {
        forall t: Shape | t.id == n && Unfolds(t)
          ensures !Passes(t, level, leafDepth, low, high, isRoot, max)
        {
          if Passes(t, level, leafDepth, low, high, isRoot, max) {
            NextPasses(n, t, kids, i, level, leafDepth, was, low, high, isRoot, max);
          }
        }
        return false, leafDepth', None;
      }
      PassesTop(k.value, level + 1, was, childLow, childHigh, false, max);
      if i == 0 {
        d := Depth(k.value);
      }
      KidPasses(n.keys, k.value, i, d, level, was, low, high, max);
      OneMoreKid(n, kids, k.value);
      kids := kids + [k.value];
    }
    s := Some(M.Node(n, n.keys, kids));
    NodePasses(n, kids, d, level, leafDepth, low, high, isRoot, max);
    return true, leafDepth', s;
  }

  lemma DepthStep(s: Shape)
    requires s.Node? && s.kids != []
    ensures Depth(s) == 1 + Depth(s.kids[0])
  {
  }

  lemma KidsHaveAll(keys: seq<Key>, kids: seq<Shape>, h: nat, lo: Option<Key>, hi: Option<Key>, max: nat)
    requires SortedKeys(keys) && KeysIn(keys, lo, hi) && |kids| == |keys| + 1
    requires forall j :: 0 <= j < |kids| ==> KidOk(keys, kids[j], j, h, lo, hi, max, -1)
    ensures KidsOk(keys, kids, h, lo, hi, max, -1)
  {
  }

  lemma KidsNeedAll(keys: seq<Key>, kids: seq<Shape>, i: nat, h: nat, lo: Option<Key>, hi: Option<Key>, max: nat)
    requires |kids| == |keys| + 1 && i < |kids|
    ensures KidsOk(keys, kids, h, lo, hi, max, -1) ==> KidOk(keys, kids[i], i, h, lo, hi, max, -1)
  {
  }

  // A child passes if it is in order at the depth of its first sibling.
  lemma KidPasses(keys: seq<Key>, kid: Shape, i: nat, d: nat, level: nat, was: int, lo: Option<Key>, hi: Option<Key>,
                  max: nat)
    requires i <= |keys| && (if i == 0 then d == Depth(kid) else was == level + 1 + d)
    ensures Passes(kid, level + 1, was, LoOf(keys, lo, i), HiOf(keys, hi, i), false, max) <==>
            KidOk(keys, kid, i, d, lo, hi, max, -1) && Agrees(was, level + 1 + d)
    ensures KidOk(keys, kid, i, d, lo, hi, max, -1) ==> Depth(kid) == d
    ensures Passes(kid, level + 1, was, LoOf(keys, lo, i), HiOf(keys, hi, i), false, max) ==> Depth(kid) == d
  {
    hide Less, WF, Depth;
    if KidOk(keys, kid, i, d, lo, hi, max, -1) {
      WFDepth(kid, d, LoOf(keys, lo, i), HiOf(keys, hi, i), max / 2, max);
    }
  }

  lemma ChildBounds(keys: seq<Key>, i: nat, low: Option<Key>, high: Option<Key>)
    requires i <= |keys|
    ensures LoOf(keys, low, i) == (if i > 0 then Some(keys[i - 1]) else low)
    ensures HiOf(keys, high, i) == (if i < |keys| then Some(keys[i]) else high)
  {
  }

  lemma NoKids(n: Node)
    ensures UnfoldsAll([]) && Heads([]) == n.children[..0]
  {
  }

  lemma {:induction false} UnfoldsMore(kids: seq<Shape>, k: Shape)
    requires UnfoldsAll(kids) && Unfolds(k)
    ensures UnfoldsAll(kids + [k])
  {
    if kids == [] {
      assert [k][1..] == [];
    } else {
      assert (kids + [k])[1..] == kids[1..] + [k];
      UnfoldsMore(kids[1..], k);
    }
  }

  lemma OneMoreKid(n: Node, kids: seq<Shape>, k: Shape)
    requires |kids| < |n.children| && UnfoldsAll(kids) && Heads(kids) == n.children[..|kids|]
    requires Unfolds(k) && k.id == n.children[|kids|]
    ensures UnfoldsAll(kids + [k]) && Heads(kids + [k]) == n.children[..|kids| + 1]
  {
    hide Unfolds, UnfoldsAll;
    UnfoldsMore(kids, k);
  }

  lemma NodePasses(n: Node, kids: seq<Shape>, d: nat, level: nat, leafDepth: int, low: Option<Key>, high: Option<Key>,
                   isRoot: bool, max: nat)
    requires !n.leaf && TopOk(n, low, high, isRoot, max) && n.keys != [] && |n.children| == |n.keys| + 1
    requires |kids| == |n.children| && UnfoldsAll(kids) && Heads(kids) == n.children[..|kids|] && d == Depth(kids[0])
    requires forall j :: 0 <= j < |kids| ==> KidOk(n.keys, kids[j], j, d, low, high, max, -1)
    requires Agrees(leafDepth, level + 1 + d)
    ensures var s := M.Node(n, n.keys, kids);
            && s.id == n && Unfolds(s) && Depth(s) == 1 + d
            && Passes(s, level, leafDepth, low, high, isRoot, max)
  {
    hide Less, SortedKeys, KeysIn, KidOk, UnfoldsAll, Heads;
    assert n.children[..|kids|] == n.children;
    KidsHaveAll(n.keys, kids, d, low, high, max);
  }

  // A shape that passes at n agrees with the children passed so far, and so does its next child.
  lemma NextPasses(n: Node, t: Shape, kids: seq<Shape>, i: nat, level: nat, leafDepth: int, was: int, low: Option<Key>,
                   high: Option<Key>, isRoot: bool, max: nat)
    requires max >= 2 && !n.leaf && t.id == n && Unfolds(t) && Passes(t, level, leafDepth, low, high, isRoot, max)
    requires i == |kids| < |n.children| && UnfoldsAll(kids) && Heads(kids) == n.children[..i]
    requires was == if i == 0 then leafDepth else level + 1 + Depth(kids[0])
    ensures t.Node? && i < |t.kids| && t.kids[i].id == n.children[i] && Unfolds(t.kids[i]) && i <= |n.keys|
    ensures Passes(t.kids[i], level + 1, was, LoOf(n.keys, low, i), HiOf(n.keys, high, i), false, max)
  {
    hide Less, SortedKeys, KeysIn, Unfolds, UnfoldsAll, Ids, IdsAll, WF, KidsOk, KidOk, Depth;
    PassesTop(t, level, leafDepth, low, high, isRoot, max);
    UnfoldsTop(t);
    WFTop(t, Depth(t), low, high, Least(t, isRoot, max), max);
    DepthStep(t);
    UnfoldsChild(t, i);
    var d := Depth(t.kids[0]);
    KidsNeedAll(t.keys, t.kids, i, d, low, high, max);
    if i > 0 {
      UnfoldsChild(t, 0);
      UnfoldsChildOf(kids, 0);
      assert Heads(kids)[0] == n.children[..i][0];
      OneShape(t.kids[0], kids[0]);
    }
    KidPasses(t.keys, t.kids[i], i, d, level, was, low, high, max);
  }

  lemma {:induction false} UnfoldsChildOf(kids: seq<Shape>, i: nat)
    requires UnfoldsAll(kids) && i < |kids|
    ensures Unfolds(kids[i])
  {
    if i > 0 {
      UnfoldsChildOf(kids[1..], i - 1);
    }
  }

  lemma UnfoldsChild(s: Shape, i: nat)
    requires s.Node? && Unfolds(s) && i < |s.kids|
    ensures Unfolds(s.kids[i]) && s.id.children[i] == s.kids[i].id && !s.id.leaf && s.id.keys == s.keys
    ensures |s.id.children| == |s.kids|
  {
    UnfoldsChildOf(s.kids, i);
  }

  lemma LeavesStep(kids: seq<Shape>, i: nat)
    requires i < |kids|
    ensures Heads(LeavesAll(kids[..i + 1])) == Heads(LeavesAll(kids[..i])) + Heads(Leaves(kids[i]))
  {
    hide Heads, Leaves;
    assert kids[..i + 1] == kids[..i] + [kids[i]];
    LeavesAppend(kids[..i], [kids[i]]);
    assert [kids[i]][1..] == [] && LeavesAll([kids[i]]) == Leaves(kids[i]);
    HeadsAppend(LeavesAll(kids[..i]), Leaves(kids[i]));
  }

  lemma LeavesOf(s: Shape)
    ensures s.Leaf? ==> Heads(Leaves(s)) == [s.id]
    ensures s.Node? ==> Heads(LeavesAll(s.kids[..0])) == [] && LeavesAll(s.kids[..|s.kids|]) == Leaves(s)
  {
    assert s.Node? ==> s.kids[..0] == [] && s.kids[..|s.kids|] == s.kids;
  }

  method CollectLeaves(n: Node, before: seq<Node>, ghost s: Shape) returns (out: seq<Node>)
    requires s.id == n && Unfolds(s)
    ensures out == before + Heads(Leaves(s))
    decreases s
  {
    hide *;
    UnfoldsTop(s);
    LeavesOf(s);
    if n.leaf {
      return before + [n];
    }
    assert allocated(Ids(s));
    out := before;
    for i := 0 to |n.children|
      invariant Unfolds(s)
      invariant out == before + Heads(LeavesAll(s.kids[..i]))
    {
      UnfoldsChild(s, i);
      assert allocated(Ids(s));
      out := CollectLeaves(n.children[i], out, s.kids[i]);
      LeavesStep(s.kids, i);
    }
  }

  method FirstLeafFrom(n: Node, ghost s: Shape) returns (first: Node)
    requires s.id == n && Unfolds(s) && Filled(s)
    ensures first == First(s)
  {
    hide IdsAll;
    ghost var cur := s;
    first := n;
    while !first.leaf
      invariant cur.id == first && Unfolds(cur) && Filled(cur) && First(cur) == First(s)
      decreases cur
    {
      UnfoldsChild(cur, 0);
      first := first.children[0];
      cur := cur.kids[0];
    }
  }

  // Halts even on a chain that runs in a circle: it gives up one link after the last of the leaves.
  method WalkChain(first: Node, inTree: seq<Node>) returns (ok: bool)
    requires inTree != [] && inTree[0] == first
    ensures ok <==> Chained(inTree, null)
  {
    var i := 0;
    var n: Node? := first;
    while n != null
      invariant i <= |inTree|
      invariant n == if i == 0 then first else inTree[i - 1].next
      invariant forall j :: 0 <= j < i - 1 ==> LinkedAt(inTree, j, null)
      decreases |inTree| - i
    {
      if i >= |inTree| || n != inTree[i] {
        assert !LinkedAt(inTree, i - 1, null);
        return false;
      }
      assert i > 0 ==> LinkedAt(inTree, i - 1, null);
      i := i + 1;
      n := n.next;
    }
    assert LinkedAt(inTree, i - 1, null) <==> i == |inTree|;
    return i == |inTree|;
  }

  method CheckLeafChain(root: Node, ghost s: Shape) returns (ok: bool)
    requires s.id == root && Unfolds(s) && Filled(s)
    ensures ok <==> Chained(Heads(Leaves(s)), null)
  {
    hide Ids, Unfolds, Filled, Leaves, First, Heads, Chained;
    assert allocated(Ids(s));
    var inTree := CollectLeaves(root, [], s);
    assert inTree == Heads(Leaves(s));
    FirstLeaf(s);
    var first := FirstLeafFrom(root, s);
    ok := WalkChain(first, inTree);
  }

  // ---------- nodes that are well formed are not shared ----------

  // One node stands for one shape.
  lemma {:induction false} OneShape(a: Shape, b: Shape)
    requires Unfolds(a) && Unfolds(b) && a.id == b.id
    ensures a == b
    decreases a
  {
    UnfoldsTop(a);
    UnfoldsTop(b);
    if a.Node? {
      assert |a.kids| == |Heads(a.kids)| == |Heads(b.kids)| == |b.kids|;
      forall i | 0 <= i < |a.kids|
        ensures a.kids[i] == b.kids[i]
      {
        UnfoldsChild(a, i);
        UnfoldsChild(b, i);
        OneShape(a.kids[i], b.kids[i]);
      }
      assert a.kids == b.kids;
    }
  }

  lemma {:induction false} InSome(kids: seq<Shape>, n: Node) returns (i: nat)
    requires n in IdsAll(kids)
    ensures i < |kids| && n in Ids(kids[i])
  {
    if n in Ids(kids[0]) {
      i := 0;
    } else {
      i := InSome(kids[1..], n);
      i := i + 1;
    }
  }

  // Any node below is a well-formed subtree, no higher, with keys of its own within the bounds of the whole.
  lemma {:induction false} Inside(s: Shape, h: nat, lo: Option<Key>, hi: Option<Key>, least: int, max: nat, n: Node)
    returns (sub: Shape)
    requires max >= 2 && least >= 1 && WF(s, h, lo, hi, least, max) && Unfolds(s) && n in Ids(s)
    ensures Unfolds(sub) && sub.id == n && Depth(sub) <= h
    ensures |n.keys| >= 1 && KeysIn(n.keys, lo, hi)
    decreases h
  {
    UnfoldsTop(s);
    WFDepth(s, h, lo, hi, least, max);
    WFTop(s, h, lo, hi, least, max);
    if n == s.id {
      sub := s;
    } else {
      hide Less, WF, KeysIn, Unfolds, Depth, AtLeast, Below;
      var i := InSome(s.kids, n);
      UnfoldsChild(s, i);
      KidIsOk(s.keys, s.kids, i, h - 1, lo, hi, max);
      sub := Inside(s.kids[i], h - 1, LoOf(s.keys, lo, i), HiOf(s.keys, hi, i), max / 2, max, n);
      KeysWiden(n.keys, s.keys, i, lo, hi);
    }
  }

  // The bounds of a child lie within those of its parent.
  lemma KeysWiden(ks: seq<Key>, keys: seq<Key>, i: nat, lo: Option<Key>, hi: Option<Key>)
    requires i <= |keys| && KeysIn(keys, lo, hi) && KeysIn(ks, LoOf(keys, lo, i), HiOf(keys, hi, i))
    ensures KeysIn(ks, lo, hi)
  {
    hide Less;
    forall j | 0 <= j < |ks|
      ensures AtLeast(ks[j], lo) && Below(ks[j], hi)
    {
      if i > 0 && lo.Some? {
        Order3(lo.value, keys[i - 1], ks[j]);
      }
      if i < |keys| && hi.Some? {
        Order3(ks[j], keys[i], hi.value);
      }
    }
  }

  // No key fits under two children.
  lemma TwoChildren(ks: seq<Key>, keys: seq<Key>, i: nat, j: nat, lo: Option<Key>, hi: Option<Key>)
    requires SortedKeys(keys) && i < j <= |keys| && |ks| >= 1 && KeysIn(ks, LoOf(keys, lo, i), HiOf(keys, hi, i))
    ensures !KeysIn(ks, LoOf(keys, lo, j), HiOf(keys, hi, j))
  {
    hide Less;
    Order3(ks[0], keys[i], keys[j - 1]);
    assert AtLeast(ks[0], LoOf(keys, lo, i)) && Below(ks[0], HiOf(keys, hi, i));
    if i < j - 1 {
      Order3(ks[0], keys[j - 1], ks[0]);
    }
  }

  // Nodes that pass for a well-formed tree are one: none is its own descendant, none has two parents.
  lemma {:induction false} WellFormedIsTree(s: Shape, h: nat, lo: Option<Key>, hi: Option<Key>, least: int, max: nat)
    requires max >= 2 && WF(s, h, lo, hi, least, max) && Unfolds(s)
    ensures Built(s)
    decreases h, 1
  {
    if s.Node? {
      hide Less, WF, SortedKeys, KeysIn, Depth, IdsAll, Ids;
      WFTop(s, h, lo, hi, least, max);
      WFDepth(s, h, lo, hi, least, max);
      if s.id in IdsAll(s.kids) {
        var i := InSome(s.kids, s.id);
        UnfoldsChild(s, i);
        KidIsOk(s.keys, s.kids, i, h - 1, lo, hi, max);
        var sub := Inside(s.kids[i], h - 1, LoOf(s.keys, lo, i), HiOf(s.keys, hi, i), max / 2, max, s.id);
        OneShape(s, sub);
      }
      KidsAreApart(s, h, lo, hi, max, 0);
    }
  }

  lemma {:induction false} KidsAreApart(s: Shape, h: nat, lo: Option<Key>, hi: Option<Key>, max: nat, i: nat)
    requires max >= 2 && h > 0 && s.Node? && i <= |s.kids| == |s.keys| + 1 && Unfolds(s) && SortedKeys(s.keys)
    requires KidsOk(s.keys, s.kids, h - 1, lo, hi, max, -1)
    ensures BuiltAll(s.kids[i..])
    decreases h, 0, |s.kids| - i
  {
    hide Less, WF, SortedKeys, KeysIn, KidsOk, Unfolds, Built, LoOf, HiOf;
    if i < |s.kids| {
      var k, rest := s.kids[i], s.kids[i + 1..];
      assert s.kids[i..][1..] == rest;
      UnfoldsChild(s, i);
      KidIsOk(s.keys, s.kids, i, h - 1, lo, hi, max);
      WellFormedIsTree(k, h - 1, LoOf(s.keys, lo, i), HiOf(s.keys, hi, i), max / 2, max);
      KidsAreApart(s, h, lo, hi, max, i + 1);
      forall n | n in Ids(k)
        ensures n !in IdsAll(rest)
      {
        NotInTwo(s, h, lo, hi, max, i, n);
      }
    }
  }

  lemma NotInTwo(s: Shape, h: nat, lo: Option<Key>, hi: Option<Key>, max: nat, i: nat, n: Node)
    requires max >= 2 && h > 0 && s.Node? && i < |s.kids| == |s.keys| + 1 && Unfolds(s) && SortedKeys(s.keys)
    requires KidsOk(s.keys, s.kids, h - 1, lo, hi, max, -1) && n in Ids(s.kids[i])
    ensures n !in IdsAll(s.kids[i + 1..])
  {
    hide Less, WF, SortedKeys, KeysIn, KidsOk, Unfolds, LoOf, HiOf, IdsAll, Ids;
    UnfoldsChild(s, i);
    KidIsOk(s.keys, s.kids, i, h - 1, lo, hi, max);
    var a := Inside(s.kids[i], h - 1, LoOf(s.keys, lo, i), HiOf(s.keys, hi, i), max / 2, max, n);
    if n in IdsAll(s.kids[i + 1..]) {
      var k := InSome(s.kids[i + 1..], n);
      var j := i + 1 + k;
      UnfoldsChild(s, j);
      KidIsOk(s.keys, s.kids, j, h - 1, lo, hi, max);
      var b := Inside(s.kids[j], h - 1, LoOf(s.keys, lo, j), HiOf(s.keys, hi, j), max / 2, max, n);
      TwoChildren(n.keys, s.keys, i, j, lo, hi);
    }
  }

  // Validate on the nodes under root, whatever they are: nil exactly if they form a well-formed tree whose leaves are
  // chained in order.
  method Validate(root: Node, max: nat, min: nat, ghost all: set<Node>) returns (ok: bool)
    requires max >= 2 && min == max / 2 && root in all && DownClosed(all)
    ensures ok <==> exists s: Shape, h :: s.id == root && WholeTree(s, h, max) && Owns(s, null)
  {
    hide Less, Ids, Built, Unfolds, WF, Filled, Leaves, First, Heads, Chained, Owns, Passes, WholeTree;
    ghost var found;
    var depth;
    ok, depth, found := Check(root, 0, -1, None, None, true, max, min, all, {});
    if !ok {
      forall s: Shape, h | s.id == root && WholeTree(s, h, max)
        ensures !Owns(s, null)
      {
        if Owns(s, null) {
          OwnedPasses(s, h, max);
        }
      }
      return;
    }
    ghost var s := found.value;
    assert allocated(Ids(s));
    WholeIsPassing(s, max);
    WholeIsShaped(s, Depth(s), max);
    ShapedIsFilled(s, Depth(s), 1);
    ok := CheckLeafChain(root, s);
    WholeIsTree(s, Depth(s), max);
    OwnedIsChained(s, null);
    assert ok <==> Owns(s, null);
    forall t: Shape, h | t.id == root && WholeTree(t, h, max) && Owns(t, null)
      ensures t == s
    {
      OwnedPasses(t, h, max);
      OneShape(t, s);
    }
  }

  lemma OwnedPasses(s: Shape, h: nat, max: nat)
    requires max >= 2 && WholeTree(s, h, max) && Owns(s, null)
    ensures Unfolds(s) && Passes(s, 0, -1, None, None, true, max)
  {
    hide Less, WF, Unfolds, Owns, Built, Filled, Passes;
    WholeIsPassing(s, max);
    WholeIsShaped(s, h, max);
    ShapedIsFilled(s, h, 1);
    OwnedIsChained(s, null);
    BuiltUnfolds(s);
  }

  lemma WholeIsTree(s: Shape, h: nat, max: nat)
    requires max >= 2 && WholeTree(s, h, max) && Unfolds(s)
    ensures Built(s)
  {
    WellFormedIsTree(s, h, None, None, if s.Leaf? then 0 else 1, max);
  }

  lemma WholeIsPassing(s: Shape, max: nat)
    ensures (exists h :: WholeTree(s, h, max)) <==> WholeTree(s, Depth(s), max)
    ensures Passes(s, 0, -1, None, None, true, max) <==> WholeTree(s, Depth(s), max)
  {
    hide Less, WF;
    forall h | WholeTree(s, h, max)
      ensures h == Depth(s)
    {
      WFDepth(s, h, None, None, if s.Leaf? then 0 else 1, max);
    }
  }
}
