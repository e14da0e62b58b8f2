// The sideways chain of leaves: owning a shape is the same as its nodes holding what it says and its leaves being
// chained in tree order.
module LeafChain {
  import opened LinkedNodes
  import M = BTreeModel

  // The leaves from left to right.
  ghost function Leaves(s: Shape): seq<Shape>
    decreases s, 0
  {
    match s
    case Leaf(_, _, _) => [s]
    case Node(_, _, kids) => LeavesAll(kids)
  }

  ghost function LeavesAll(kids: seq<Shape>): seq<Shape>
    decreases kids, 1
  {
    if kids == [] then [] else Leaves(kids[0]) + LeavesAll(kids[1..])
  }

  // No inner node is without children.
  ghost predicate Filled(s: Shape)
    decreases s, 0
  {
    s.Node? ==> s.kids != [] && FilledAll(s.kids)
  }

  ghost predicate FilledAll(kids: seq<Shape>)
    decreases kids, 1
  {
    kids != [] ==> Filled(kids[0]) && FilledAll(kids[1..])
  }

  // What the nodes hold, whatever their next links are.
  ghost predicate Built(s: Shape)
    reads Ids(s)
    decreases s, 0
  {
    match s
    case Leaf(id, keys, rows) => id.leaf && id.keys == keys && id.rows == rows
    case Node(id, keys, kids) =>
      && !id.leaf && id.keys == keys && id.children == Heads(kids)
      && id !in IdsAll(kids) && BuiltAll(kids)
  }

  ghost predicate BuiltAll(kids: seq<Shape>)
    reads IdsAll(kids)
    decreases kids, 1
  {
    kids != [] ==> Built(kids[0]) && Ids(kids[0]) !! IdsAll(kids[1..]) && BuiltAll(kids[1..])
  }

  // The same, but nodes may be shared: the shape is what the source meets on its way down, node by node.
  ghost predicate Unfolds(s: Shape)
    reads Ids(s)
    decreases s, 0
  {
    match s
    case Leaf(id, keys, rows) => id.leaf && id.keys == keys && id.rows == rows
    case Node(id, keys, kids) =>
      !id.leaf && id.keys == keys && id.children == Heads(kids) && UnfoldsAll(kids)
  }

  ghost predicate UnfoldsAll(kids: seq<Shape>)
    reads IdsAll(kids)
    decreases kids, 1
  {
    kids != [] ==> Unfolds(kids[0]) && UnfoldsAll(kids[1..])
  }

  lemma {:induction false} BuiltUnfolds(s: Shape)
    requires Built(s)
    ensures Unfolds(s)
    decreases s, 0
  {
    if s.Node? {
      BuiltUnfoldsAll(s.kids);
    }
  }

  lemma {:induction false} BuiltUnfoldsAll(kids: seq<Shape>)
    requires BuiltAll(kids)
    ensures UnfoldsAll(kids)
    decreases kids, 1
  {
    if kids != [] {
      BuiltUnfolds(kids[0]);
      BuiltUnfoldsAll(kids[1..]);
    }
  }

  // Following next from the first of ls visits exactly ls, then tail.
  ghost predicate Chained(ls: seq<Node>, tail: Node?)
    reads ls
  {
    forall i :: 0 <= i < |ls| ==> LinkedAt(ls, i, tail)
  }

  ghost predicate LinkedAt(ls: seq<Node>, i: nat, tail: Node?)
    requires i < |ls|
    reads ls[i]
  {
    ls[i].next == if i + 1 < |ls| then ls[i + 1] else tail
  }

  lemma ChainedAppend(a: seq<Node>, b: seq<Node>, tail: Node?)
    ensures Chained(a + b, tail) <==> Chained(a, if b == [] then tail else b[0]) && Chained(b, tail)
  {
    var ab := a + b;
    var mid := if b == [] then tail else b[0];
    if Chained(ab, tail) {
      forall i | 0 <= i < |a|
        ensures LinkedAt(a, i, mid)
      {
        assert LinkedAt(ab, i, tail);
      }
      forall i | 0 <= i < |b|
        ensures LinkedAt(b, i, tail)
      {
        assert LinkedAt(ab, |a| + i, tail);
        assert ab[|a| + i] == b[i];
      }
    }
    if Chained(a, mid) && Chained(b, tail) {
      forall i | 0 <= i < |ab|
        ensures LinkedAt(ab, i, tail)
      {
        if i < |a| {
          assert LinkedAt(a, i, mid);
        } else {
          assert LinkedAt(b, i - |a|, tail);
        }
      }
    }
  }

  lemma {:induction false} FirstLeaf(s: Shape)
    requires Filled(s)
    ensures Leaves(s) != [] && Leaves(s)[0].id == First(s)
    decreases s
  {
    if s.Node? {
      FirstLeaf(s.kids[0]);
    }
  }

  lemma FirstLeafOf(kids: seq<Shape>)
    requires FilledAll(kids)
    ensures kids == [] <==> LeavesAll(kids) == []
    ensures kids != [] ==> LeavesAll(kids)[0].id == First(kids[0])
  {
    if kids != [] {
      FirstLeaf(kids[0]);
    }
  }

  lemma {:induction false} OwnedIsChained(s: Shape, tail: Node?)
    requires Filled(s)
    ensures Owns(s, tail) <==> Built(s) && Chained(Heads(Leaves(s)), tail)
    decreases s, 0
  {
    if s.Node? {
      OwnedIsChainedAll(s.kids, tail);
    } else {
      var ls := Heads(Leaves(s));
      assert ls == [s.id];
      assert LinkedAt(ls, 0, tail) <==> s.id.next == tail;
    }
  }

  lemma {:induction false} OwnedIsChainedAll(kids: seq<Shape>, tail: Node?)
    requires FilledAll(kids)
    ensures OwnsAll(kids, tail) <==> BuiltAll(kids) && Chained(Heads(LeavesAll(kids)), tail)
    decreases kids, 1
  {
    hide Chained, First, Heads, Owns, Built, Leaves, Ids, IdsAll;
    if kids == [] {
      NothingChained(tail);
    } else {
      var a, b := Leaves(kids[0]), LeavesAll(kids[1..]);
      FirstLeafOf(kids[1..]);
      OwnedIsChained(kids[0], FirstOf(kids[1..], tail));
      OwnedIsChainedAll(kids[1..], tail);
      HeadsAppend(a, b);
      ChainedAppend(Heads(a), Heads(b), tail);
    }
  }

  lemma NothingChained(tail: Node?)
    ensures LeavesAll([]) == [] && Chained(Heads(LeavesAll([])), tail)
  {
  }

  // The leaves by themselves are owned in the same order, and hold all entries.
  lemma {:induction false} LeavesAreOwned(s: Shape, tail: Node?)
    requires Owns(s, tail) && Filled(s)
    ensures OwnsAll(Leaves(s), tail) && IdsAll(Leaves(s)) <= Ids(s)
    decreases s, 0
  {
    if s.Leaf? {
      OwnsOne(s, tail);
    } else {
      LeavesAllAreOwned(s.kids, tail);
    }
  }

  lemma {:induction false} LeavesAllAreOwned(kids: seq<Shape>, tail: Node?)
    requires OwnsAll(kids, tail) && FilledAll(kids)
    ensures OwnsAll(LeavesAll(kids), tail) && IdsAll(LeavesAll(kids)) <= IdsAll(kids)
    decreases kids, 1
  {
    hide Owns, Ids, First, Leaves;
    if kids != [] {
      var a, b := Leaves(kids[0]), LeavesAll(kids[1..]);
      LeavesAreOwned(kids[0], FirstOf(kids[1..], tail));
      LeavesAllAreOwned(kids[1..], tail);
      FirstLeafOf(kids[1..]);
      LeafFirst(kids[1..]);
      OwnsAppend(a, b, tail);
    }
  }

  lemma LeafFirst(kids: seq<Shape>)
    requires FilledAll(kids)
    ensures kids != [] ==> LeavesAll(kids) != [] && First(LeavesAll(kids)[0]) == First(kids[0])
  {
    if kids != [] {
      FirstLeaf(kids[0]);
      LeavesAreLeaves(kids[0]);
    }
  }

  lemma {:induction false} LeavesAreLeaves(s: Shape)
    ensures forall l :: l in Leaves(s) ==> l.Leaf?
    decreases s, 0
  {
    if s.Node? {
      LeavesAllAreLeaves(s.kids);
    }
  }

  lemma {:induction false} LeavesAllAreLeaves(kids: seq<Shape>)
    ensures forall l :: l in LeavesAll(kids) ==> l.Leaf?
    decreases kids, 1
  {
    if kids != [] {
      LeavesAreLeaves(kids[0]);
      LeavesAllAreLeaves(kids[1..]);
    }
  }

  lemma {:induction false} LeavesHoldAll(s: Shape)
    ensures M.FlatAll(Leaves(s)) == M.Flat(s)
    decreases s, 0
  {
    if s.Leaf? {
      assert [s][1..] == [];
    } else {
      LeavesAllHoldAll(s.kids);
    }
  }

  lemma {:induction false} LeavesAllHoldAll(kids: seq<Shape>)
    ensures M.FlatAll(LeavesAll(kids)) == M.FlatAll(kids)
    decreases kids, 1
  {
    if kids != [] {
      LeavesHoldAll(kids[0]);
      LeavesAllHoldAll(kids[1..]);
      M.FlatAppend(Leaves(kids[0]), LeavesAll(kids[1..]));
    }
  }

  lemma {:induction false} LeavesAppend(a: seq<Shape>, b: seq<Shape>)
    ensures LeavesAll(a + b) == LeavesAll(a) + LeavesAll(b)
  {
    if a == [] {
      assert a + b == b;
    } else {
      assert (a + b)[1..] == a[1..] + b;
      LeavesAppend(a[1..], b);
    }
  }

  lemma {:induction false} ShapedIsFilled(s: Shape, h: nat, least: nat)
    requires M.Shaped(s, h, least)
    ensures Filled(s)
    decreases h, 0
  {
    if s.Node? {
      ShapedAllIsFilled(s.kids, h - 1);
    }
  }

  lemma {:induction false} ShapedAllIsFilled(kids: seq<Shape>, h: nat)
    requires forall i :: 0 <= i < |kids| ==> M.Shaped(kids[i], h, 1)
    ensures FilledAll(kids)
    decreases h, 1, |kids|
  {
    if kids != [] {
      ShapedIsFilled(kids[0], h, 1);
      ShapedAllIsFilled(kids[1..], h);
    }
  }
}
