// Deletion from linked nodes, in place: borrowing from a sibling, merging with one, and the cascade upwards.
module NodeDeletion {
  import opened ByteOrder
  import opened Outcomes
  import opened BTreeInvariant
  import opened LinkedNodes
  import opened NodeInsertion
  import M = BTreeModel

  // s' is s rewritten in place: the same node on top, the same first leaf, no node that was not there.
  ghost predicate Rewritten(s': Shape, s: Shape, tail: Node?)
    reads Ids(s')
  {
    s'.id == s.id && Owns(s', tail) && First(s') == First(s) && Ids(s') <= Ids(s)
  }

  // Between leaves the last entry moves, and its key becomes the separator.
  method BorrowLeafFromLeft(left: Node, child: Node, ghost x: Shape, ghost y: Shape, ghost tail: Node?)
    returns (sep: Key, ghost x': Shape, ghost y': Shape)
    requires x.Leaf? && y.Leaf? && |x.keys| >= 2 && |x.rows| == |x.keys|
    requires x.id == left && y.id == child && left != child && Owns(x, child) && Owns(y, tail)
    modifies left, child
    ensures x' == M.Leaf(left, x.keys[..|x.keys| - 1], x.rows[..|x.keys| - 1])
    ensures y' == M.Leaf(child, [x.keys[|x.keys| - 1]] + y.keys, [x.rows[|x.keys| - 1]] + y.rows)
    ensures sep == y'.keys[0]
    ensures Owns(x', First(y')) && Owns(y', tail) && First(x') == First(x)
    ensures Ids(x') !! Ids(y') && Ids(x') + Ids(y') == Ids(x) + Ids(y)
  {
    var last := |left.keys| - 1;
    child.keys := [left.keys[last]] + child.keys;
    child.rows := [left.rows[last]] + child.rows;
    left.keys := left.keys[..last];
    left.rows := left.rows[..last];
    sep := child.keys[0];
    x', y' := M.Leaf(left, left.keys, left.rows), M.Leaf(child, child.keys, child.rows);
  }

  // Between inner nodes the last child moves, and keys rotate through the parent.
  method BorrowInnerFromLeft(left: Node, child: Node, down: Key, ghost x: Shape, ghost y: Shape, ghost tail: Node?)
    returns (up: Key, ghost x': Shape, ghost y': Shape)
    requires x.Node? && y.Node? && |x.keys| >= 1 && |x.kids| == |x.keys| + 1 && |y.kids| > 0
    requires x.id == left && y.id == child && Owns(x, First(y)) && Owns(y, tail) && Ids(x) !! Ids(y)
    modifies left, child
    ensures x' == M.Node(left, x.keys[..|x.keys| - 1], x.kids[..|x.keys|])
    ensures y' == M.Node(child, [down] + y.keys, [x.kids[|x.keys|]] + y.kids)
    ensures up == x.keys[|x.keys| - 1]
    ensures Owns(x', First(y')) && Owns(y', tail) && First(x') == First(x)
    ensures Ids(x') !! Ids(y') && Ids(x') + Ids(y') == Ids(x) + Ids(y)
  {
    hide IdsAll, OwnsAll, Heads;
    var last := |left.keys| - 1;
    var lastChild := |left.children| - 1;
    ghost var xa, m := x.kids[..last + 1], x.kids[last + 1];
    assert x.kids == xa + [m];
    assert [m] + y.kids == [m] + y.kids;
    OwnsAppend(xa, [m], First(y));
    OwnsOne(m, First(y));
    OwnsAppend([m], y.kids, tail);
    HeadsAppend(xa, [m]);
    HeadsAppend([m], y.kids);
    child.keys := [down] + child.keys;
    child.children := [left.children[lastChild]] + child.children;
    up := left.keys[last];
    left.keys := left.keys[..last];
    left.children := left.children[..lastChild];
    x', y' := M.Node(left, left.keys, xa), M.Node(child, child.keys, [m] + y.kids);
    NodeIsOwned(y', tail);
    NodeIsOwned(x', First(y'));
  }

  method BorrowLeafFromRight(child: Node, right: Node, ghost x: Shape, ghost y: Shape, ghost tail: Node?)
    returns (sep: Key, ghost x': Shape, ghost y': Shape)
    requires x.Leaf? && y.Leaf? && |y.keys| >= 2 && |y.rows| == |y.keys|
    requires x.id == child && y.id == right && child != right && Owns(x, right) && Owns(y, tail)
    modifies child, right
    ensures x' == M.Leaf(child, x.keys + [y.keys[0]], x.rows + [y.rows[0]])
    ensures y' == M.Leaf(right, y.keys[1..], y.rows[1..])
    ensures sep == y'.keys[0]
    ensures Owns(x', First(y')) && Owns(y', tail) && First(x') == First(x)
    ensures Ids(x') !! Ids(y') && Ids(x') + Ids(y') == Ids(x) + Ids(y)
  {
    child.keys := child.keys + [right.keys[0]];
    child.rows := child.rows + [right.rows[0]];
    right.keys := right.keys[1..];
    right.rows := right.rows[1..];
    sep := right.keys[0];
    x', y' := M.Leaf(child, child.keys, child.rows), M.Leaf(right, right.keys, right.rows);
  }

  method BorrowInnerFromRight(child: Node, right: Node, down: Key, ghost x: Shape, ghost y: Shape, ghost tail: Node?)
    returns (up: Key, ghost x': Shape, ghost y': Shape)
    requires x.Node? && y.Node? && |y.keys| >= 1 && |y.kids| == |y.keys| + 1 && |x.kids| > 0
    requires x.id == child && y.id == right && Owns(x, First(y)) && Owns(y, tail) && Ids(x) !! Ids(y)
    modifies child, right
    ensures x' == M.Node(child, x.keys + [down], x.kids + [y.kids[0]])
    ensures y' == M.Node(right, y.keys[1..], y.kids[1..])
    ensures up == y.keys[0]
    ensures Owns(x', First(y')) && Owns(y', tail) && First(x') == First(x)
    ensures Ids(x') !! Ids(y') && Ids(x') + Ids(y') == Ids(x) + Ids(y)
  {
    hide IdsAll, OwnsAll, Heads;
    ghost var m, yb := y.kids[0], y.kids[1..];
    assert y.kids == [m] + yb;
    OwnsAppend([m], yb, tail);
    OwnsOne(m, First(yb[0]));
    OwnsAppend(x.kids, [m], First(yb[0]));
    HeadsAppend(x.kids, [m]);
    HeadsAppend([m], yb);
    child.keys := child.keys + [down];
    child.children := child.children + [right.children[0]];
    up := right.keys[0];
    right.keys := right.keys[1..];
    right.children := right.children[1..];
    x', y' := M.Node(child, child.keys, x.kids + [m]), M.Node(right, right.keys, yb);
    NodeIsOwned(y', tail);
    NodeIsOwned(x', First(y'));
  }

  // What moving one entry or child between neighbours makes of them, and the separator that goes between them.
  datatype Moved = Moved(sep: Key, left: Shape, right: Shape)

  ghost predicate CanMove(x: Shape, y: Shape, toRight: bool) {
    && x.Leaf? == y.Leaf?
    && (if x.Leaf? then |x.rows| == |x.keys| && |y.rows| == |y.keys|
        else |x.kids| == |x.keys| + 1 && |y.kids| == |y.keys| + 1)
    && |(if toRight then x else y).keys| >= 2
  }

  ghost function Move(x: Shape, y: Shape, down: Key, toRight: bool): Moved
    requires CanMove(x, y, toRight)
  {
    var last := |x.keys| - 1;
    if toRight && x.Leaf? then
      Moved(x.keys[last], M.Leaf(x.id, x.keys[..last], x.rows[..last]),
            M.Leaf(y.id, [x.keys[last]] + y.keys, [x.rows[last]] + y.rows))
    else if toRight then
      Moved(x.keys[last], M.Node(x.id, x.keys[..last], x.kids[..last + 1]),
            M.Node(y.id, [down] + y.keys, [x.kids[last + 1]] + y.kids))
    else if x.Leaf? then
      Moved(y.keys[1], M.Leaf(x.id, x.keys + [y.keys[0]], x.rows + [y.rows[0]]),
            M.Leaf(y.id, y.keys[1..], y.rows[1..]))
    else
      Moved(y.keys[0], M.Node(x.id, x.keys + [down], x.kids + [y.kids[0]]), M.Node(y.id, y.keys[1..], y.kids[1..]))
  }

  lemma MoveKeepsIds(x: Shape, y: Shape, down: Key, toRight: bool)
    requires CanMove(x, y, toRight)
    ensures Move(x, y, down, toRight).left.id == x.id && Move(x, y, down, toRight).right.id == y.id
  {
  }

  method MoveOne(left: Node, right: Node, down: Key, toRight: bool, ghost x: Shape, ghost y: Shape,
                 ghost tail: Node?)
    returns (sep: Key, ghost x': Shape, ghost y': Shape)
    requires CanMove(x, y, toRight)
    requires x.id == left && y.id == right && Owns(x, First(y)) && Owns(y, tail) && Ids(x) !! Ids(y)
    modifies left, right
    ensures Moved(sep, x', y') == Move(x, y, down, toRight)
    ensures Owns(x', First(y')) && Owns(y', tail) && First(x') == First(x)
    ensures Ids(x') !! Ids(y') && Ids(x') + Ids(y') == Ids(x) + Ids(y)
  {
    hide Ids, Owns, First;
    OwnsTop(x, First(y));
    OwnsTop(y, tail);
    if right.leaf {
      if toRight {
        sep, x', y' := BorrowLeafFromLeft(left, right, x, y, tail);
      } else {
        sep, x', y' := BorrowLeafFromRight(left, right, x, y, tail);
      }
    } else {
      if toRight {
        sep, x', y' := BorrowInnerFromLeft(left, right, down, x, y, tail);
      } else {
        sep, x', y' := BorrowInnerFromRight(left, right, down, x, y, tail);
      }
    }
  }

  ghost predicate Apart(id: Node, a: set<Node>, x: set<Node>, y: set<Node>, b: set<Node>, all: set<Node>) {
    a !! x && a !! y && a !! b && x !! y && x !! b && y !! b && id !in a + x + y + b && a + x + y + b <= all
  }

  lemma ApartAfter(id: Node, a: set<Node>, x: set<Node>, y: set<Node>, b: set<Node>, all: set<Node>,
                   x': set<Node>, y': set<Node>)
    requires Apart(id, a, x, y, b, all) && x' !! y' && x' + y' == x + y
    ensures Apart(id, a, x', y', b, all)
  {
    forall m | m in x' || m in y'
      ensures m in x || m in y
    {
      assert m in x' + y';
    }
  }

  // Two neighbours of a node replaced by x' and y', each part in order and none sharing a node.
  ghost predicate PairInPlace(s: Shape, i: nat, x': Shape, y': Shape, tail: Node?)
    requires s.Node? && i + 1 < |s.kids|
    reads IdsAll(s.kids[..i]), Ids(x'), Ids(y'), IdsAll(s.kids[i + 2..])
  {
    var a, b := s.kids[..i], s.kids[i + 2..];
    && x'.id == s.kids[i].id && y'.id == s.kids[i + 1].id && First(x') == First(s.kids[i])
    && OwnsAll(a, First(x')) && Owns(x', First(y')) && Owns(y', FirstOf(b, tail)) && OwnsAll(b, tail)
    && Apart(s.id, IdsAll(a), Ids(x'), Ids(y'), IdsAll(b), Ids(s))
  }

  lemma PairIsOwned(s: Shape, i: nat, sep: Key, x': Shape, y': Shape, tail: Node?)
    requires s.Node? && i + 1 < |s.kids| && i < |s.keys|
    requires !s.id.leaf && s.id.keys == s.keys[i := sep] && s.id.children == Heads(s.kids)
    requires PairInPlace(s, i, x', y', tail)
    ensures Rewritten(M.Node(s.id, s.keys[i := sep], s.kids[i := x'][i + 1 := y']), s, tail)
  {
    hide IdsAll, OwnsAll;
    var a, b := s.kids[..i], s.kids[i + 2..];
    var kids := s.kids[i := x'][i + 1 := y'];
    assert kids == a + [x', y'] + b;
    OwnsTwo(x', y', FirstOf(b, tail));
    OwnsAround(a, [x', y'], b, tail);
    assert Heads(kids) == Heads(s.kids);
    NodeIsOwned(M.Node(s.id, s.keys[i := sep], kids), tail);
  }

  // The separator between two rewritten neighbours is replaced.
  method SetSeparator(p: Node, i: nat, sep: Key, ghost s: Shape, ghost x': Shape, ghost y': Shape, ghost tail: Node?)
    requires s.Node? && i + 1 < |s.kids| && i < |s.keys| && s.id == p
    requires !p.leaf && p.keys == s.keys && p.children == Heads(s.kids) && PairInPlace(s, i, x', y', tail)
    modifies p
    ensures Rewritten(M.Node(p, s.keys[i := sep], s.kids[i := x'][i + 1 := y']), s, tail)
  {
    hide Ids, IdsAll, Owns, OwnsAll, Heads, First, Rewritten;
    p.keys := p.keys[i := sep];
    PairIsOwned(s, i, sep, x', y', tail);
  }

  // What is around the pair stays in order.
  method MoveAmong(left: Node, right: Node, down: Key, toRight: bool, ghost a: seq<Shape>, ghost x: Shape,
                   ghost y: Shape, ghost b: seq<Shape>, ghost tail: Node?)
    returns (sep: Key, ghost x': Shape, ghost y': Shape)
    requires CanMove(x, y, toRight) && x.id == left && y.id == right && Ids(x) !! Ids(y)
    requires Owns(x, First(y)) && Owns(y, FirstOf(b, tail))
    requires OwnsAll(a, First(x)) && OwnsAll(b, tail)
    requires left !in IdsAll(a) && left !in IdsAll(b) && right !in IdsAll(a) && right !in IdsAll(b)
    modifies left, right
    ensures Moved(sep, x', y') == Move(x, y, down, toRight) && x'.id == left && y'.id == right
    ensures Owns(x', First(y')) && Owns(y', FirstOf(b, tail)) && First(x') == First(x)
    ensures OwnsAll(a, First(x')) && OwnsAll(b, tail)
    ensures Ids(x') !! Ids(y') && Ids(x') + Ids(y') == Ids(x) + Ids(y)
  {
    hide CanMove, Move, Ids, IdsAll, Owns, OwnsAll, First;
    assert allocated(IdsAll(a)) && allocated(IdsAll(b));
    sep, x', y' := MoveOne(left, right, down, toRight, x, y, FirstOf(b, tail));
    MoveKeepsIds(x, y, down, toRight);
  }

  // Moves an entry or a child between the j-th child of p and the next.
  method MovePair(p: Node, j: nat, toRight: bool, ghost s: Shape, ghost tail: Node?)
    returns (sep: Key, ghost x': Shape, ghost y': Shape)
    requires s.Node? && s.id == p && Owns(s, tail) && j + 1 < |s.kids| == |s.keys| + 1
    requires CanMove(s.kids[j], s.kids[j + 1], toRight)
    modifies p.children[j], p.children[j + 1]
    ensures Moved(sep, x', y') == Move(s.kids[j], s.kids[j + 1], s.keys[j], toRight)
    ensures PairInPlace(s, j, x', y', tail)
    ensures !p.leaf && p.keys == s.keys && p.children == Heads(s.kids)
  {
    ghost var a, x, y, b := s.kids[..j], s.kids[j], s.kids[j + 1], s.kids[j + 2..];
    hide CanMove, Move, Ids, IdsAll, Owns, OwnsAll, Heads, First;
    OwnsTop(s, tail);
    OwnsPair(s, j, tail);
    OwnsTop(x, First(y));
    OwnsTop(y, FirstOf(b, tail));
    assert Apart(p, IdsAll(a), Ids(x), Ids(y), IdsAll(b), Ids(s));
    sep, x', y' := MoveAmong(p.children[j], p.children[j + 1], p.keys[j], toRight, a, x, y, b, tail);
    ApartAfter(p, IdsAll(a), Ids(x), Ids(y), IdsAll(b), Ids(s), Ids(x'), Ids(y'));
  }

  // The j-th child of s and the next with one entry or child moved between them.
  ghost function WithMove(s: Shape, j: nat, toRight: bool): Shape
    requires s.Node? && j + 1 < |s.kids| == |s.keys| + 1 && CanMove(s.kids[j], s.kids[j + 1], toRight)
  {
    var m := Move(s.kids[j], s.kids[j + 1], s.keys[j], toRight);
    M.Node(s.id, s.keys[j := m.sep], s.kids[j := m.left][j + 1 := m.right])
  }

  // Both borrows: rewrite the pair, then the separator.
  method Rotate(p: Node, j: nat, toRight: bool, ghost s: Shape, ghost tail: Node?)
    requires s.Node? && s.id == p && Owns(s, tail) && j + 1 < |s.kids| == |s.keys| + 1
    requires CanMove(s.kids[j], s.kids[j + 1], toRight)
    modifies Ids(s)
    ensures Rewritten(WithMove(s, j, toRight), s, tail)
  {
    hide CanMove, Move, Ids, IdsAll, Owns, OwnsAll, Heads, First;
    OwnsTop(s, tail);
    ChildIn(s, j);
    ChildIn(s, j + 1);
    ghost var x', y';
    var sep;
    sep, x', y' := MovePair(p, j, toRight, s, tail);
    SetSeparator(p, j, sep, s, x', y', tail);
  }

  lemma BorrowLeftIsMove(s: Shape, i: nat, h: nat)
    requires M.Wanting(s, i, h) && i > 0 && |s.kids[i - 1].keys| >= 2
    ensures |s.kids| == |s.keys| + 1 && CanMove(s.kids[i - 1], s.kids[i], true)
    ensures M.BorrowFromLeft(s, i, h) == WithMove(s, i - 1, true)
  {
  }

  lemma BorrowRightIsMove(s: Shape, i: nat, h: nat)
    requires M.Wanting(s, i, h) && i + 1 < |s.kids| && |s.kids[i + 1].keys| >= 2
    ensures |s.kids| == |s.keys| + 1 && CanMove(s.kids[i], s.kids[i + 1], false)
    ensures M.BorrowFromRight(s, i, h) == WithMove(s, i, false)
  {
  }

  method BorrowFromLeft(p: Node, i: nat, ghost s: Shape, ghost h: nat, ghost tail: Node?)
    requires M.Wanting(s, i, h) && i > 0 && |s.kids[i - 1].keys| >= 2 && s.id == p && Owns(s, tail)
    modifies Ids(s)
    ensures Rewritten(M.BorrowFromLeft(s, i, h), s, tail)
  {
    hide Ids, Owns, First;
    BorrowLeftIsMove(s, i, h);
    Rotate(p, i - 1, true, s, tail);
  }

  method BorrowFromRight(p: Node, i: nat, ghost s: Shape, ghost h: nat, ghost tail: Node?)
    requires M.Wanting(s, i, h) && i + 1 < |s.kids| && |s.kids[i + 1].keys| >= 2 && s.id == p && Owns(s, tail)
    modifies Ids(s)
    ensures Rewritten(M.BorrowFromRight(s, i, h), s, tail)
  {
    hide Ids, Owns, First;
    BorrowRightIsMove(s, i, h);
    Rotate(p, i, false, s, tail);
  }

  // ---------- merging ----------

  // Whether x and y can become one node.
  ghost predicate CanMerge(x: Shape, y: Shape) {
    x.Leaf? == y.Leaf? && (x.Node? ==> x.kids != [] && y.kids != [])
  }

  // The left one of two neighbours takes over everything; the right one drops out of the leaf chain.
  method MergeInto(left: Node, right: Node, down: Key, ghost x: Shape, ghost y: Shape, ghost tail: Node?)
    requires CanMerge(x, y) && x.id == left && y.id == right && Ids(x) !! Ids(y)
    requires Owns(x, First(y)) && Owns(y, tail)
    modifies left
    ensures var m := M.Merged(x, down, y); Owns(m, tail) && First(m) == First(x) && Ids(m) <= Ids(x) + Ids(y)
  {
    hide IdsAll, OwnsAll, Heads;
    if left.leaf {
      left.keys := left.keys + right.keys;
      left.rows := left.rows + right.rows;
      left.next := right.next;
    } else {
      OwnsAppend(x.kids, y.kids, tail);
      HeadsAppend(x.kids, y.kids);
      left.keys := left.keys + [down];
      left.keys := left.keys + right.keys;
      left.children := left.children + right.children;
      NodeIsOwned(M.Merged(x, down, y), tail);
    }
  }

  method MergeAmong(left: Node, right: Node, down: Key, ghost a: seq<Shape>, ghost x: Shape, ghost y: Shape,
                    ghost b: seq<Shape>, ghost tail: Node?)
    requires CanMerge(x, y) && x.id == left && y.id == right && Ids(x) !! Ids(y)
    requires Owns(x, First(y)) && Owns(y, FirstOf(b, tail))
    requires OwnsAll(a, First(x)) && OwnsAll(b, tail) && left !in IdsAll(a) && left !in IdsAll(b)
    modifies left
    ensures var m := M.Merged(x, down, y);
            && m.id == left && Owns(m, FirstOf(b, tail)) && First(m) == First(x) && Ids(m) <= Ids(x) + Ids(y)
            && OwnsAll(a, First(m)) && OwnsAll(b, tail)
  {
    hide CanMerge, Ids, IdsAll, Owns, OwnsAll, First;
    assert allocated(IdsAll(a)) && allocated(IdsAll(b));
    MergeInto(left, right, down, x, y, FirstOf(b, tail));
  }

  // The i-th child of a node and the next replaced by m.
  ghost predicate MergedInPlace(s: Shape, i: nat, m: Shape, tail: Node?)
    requires s.Node? && i + 1 < |s.kids|
    reads IdsAll(s.kids[..i]), Ids(m), IdsAll(s.kids[i + 2..])
  {
    var a, b := s.kids[..i], s.kids[i + 2..];
    && m.id == s.kids[i].id && First(m) == First(s.kids[i])
    && OwnsAll(a, First(m)) && Owns(m, FirstOf(b, tail)) && OwnsAll(b, tail)
    && Apart(s.id, IdsAll(a), Ids(m), {}, IdsAll(b), Ids(s))
  }

  lemma MergedIsOwned(s: Shape, i: nat, m: Shape, tail: Node?)
    requires s.Node? && i + 1 < |s.kids| && i < |s.keys|
    requires !s.id.leaf && s.id.keys == M.RemoveAt(s.keys, i)
    requires s.id.children == Heads(s.kids)[..i + 1] + Heads(s.kids)[i + 2..]
    requires MergedInPlace(s, i, m, tail)
    ensures Rewritten(M.Node(s.id, M.RemoveAt(s.keys, i), s.kids[..i] + [m] + s.kids[i + 2..]), s, tail)
  {
    hide IdsAll, OwnsAll;
    var a, b := s.kids[..i], s.kids[i + 2..];
    var kids := a + [m] + b;
    OwnsOne(m, FirstOf(b, tail));
    OwnsAround(a, [m], b, tail);
    assert Heads(kids) == Heads(s.kids)[..i + 1] + Heads(s.kids)[i + 2..];
    NodeIsOwned(M.Node(s.id, M.RemoveAt(s.keys, i), kids), tail);
  }

  // The separator and the right one of two merged neighbours are dropped.
  method DropRight(p: Node, i: nat, ghost s: Shape, ghost m: Shape, ghost tail: Node?)
    requires s.Node? && i + 1 < |s.kids| == |s.keys| + 1 && s.id == p
    requires !p.leaf && p.keys == s.keys && p.children == Heads(s.kids) && MergedInPlace(s, i, m, tail)
    modifies p
    ensures Rewritten(M.Node(p, M.RemoveAt(s.keys, i), s.kids[..i] + [m] + s.kids[i + 2..]), s, tail)
  {
    hide Ids, IdsAll, Owns, OwnsAll, Heads, First, Rewritten;
    p.keys := p.keys[..i] + p.keys[i + 1..];
    p.children := p.children[..i + 1] + p.children[i + 2..];
    MergedIsOwned(s, i, m, tail);
  }

  method MergePair(p: Node, i: nat, ghost s: Shape, ghost tail: Node?)
    requires s.Node? && s.id == p && Owns(s, tail) && i + 1 < |s.kids| == |s.keys| + 1
    requires CanMerge(s.kids[i], s.kids[i + 1])
    modifies p.children[i]
    ensures MergedInPlace(s, i, M.Merged(s.kids[i], s.keys[i], s.kids[i + 1]), tail)
    ensures !p.leaf && p.keys == s.keys && p.children == Heads(s.kids)
  {
    ghost var a, x, y, b := s.kids[..i], s.kids[i], s.kids[i + 1], s.kids[i + 2..];
    hide CanMerge, M.Merged, Ids, IdsAll, Owns, OwnsAll, Heads, First;
    OwnsTop(s, tail);
    OwnsPair(s, i, tail);
    OwnsTop(x, First(y));
    MergeAmong(p.children[i], p.children[i + 1], p.keys[i], a, x, y, b, tail);
  }

  lemma MergeIsJoin(s: Shape, i: nat, w: nat, h: nat)
    requires M.Wanting(s, w, h) && (w == i || w == i + 1) && i < |s.keys|
    ensures |s.kids| == |s.keys| + 1 && CanMerge(s.kids[i], s.kids[i + 1])
    ensures M.Merge(s, i, h) ==
            M.Node(s.id, M.RemoveAt(s.keys, i),
                   s.kids[..i] + [M.Merged(s.kids[i], s.keys[i], s.kids[i + 1])] + s.kids[i + 2..])
  {
  }

  method Merge(p: Node, i: nat, ghost s: Shape, ghost h: nat, ghost tail: Node?)
    requires (M.Wanting(s, i, h) || M.Wanting(s, i + 1, h)) && i < |s.keys| && s.id == p && Owns(s, tail)
    modifies Ids(s)
    ensures Rewritten(M.Merge(s, i, h), s, tail)
  {
    hide CanMerge, M.Merged, M.Merge, Ids, IdsAll, Owns, OwnsAll, Heads, First;
    MergeIsJoin(s, i, if M.Wanting(s, i, h) then i else i + 1, h);
    OwnsTop(s, tail);
    ChildIn(s, i);
    MergePair(p, i, s, tail);
    DropRight(p, i, s, M.Merged(s.kids[i], s.keys[i], s.kids[i + 1]), tail);
  }

  // ---------- deletion ----------

  // The i-th child of p is short of a key.
  method Repair(p: Node, i: nat, min: nat, ghost s: Shape, ghost h: nat, ghost tail: Node?)
    requires min >= 1 && M.Wanting(s, i, h) && |s.kids[i].keys| < min && s.id == p && Owns(s, tail)
    modifies Ids(s)
    ensures Rewritten(M.Repair(s, i, min, h), s, tail)
  {
    hide Ids, IdsAll, Owns, OwnsAll, Heads, First;
    KidKeys(s, tail);
    if i > 0 && |p.children[i - 1].keys| > min {
      BorrowFromLeft(p, i, s, h, tail);
    } else if i < |p.children| - 1 && |p.children[i + 1].keys| > min {
      BorrowFromRight(p, i, s, h, tail);
    } else if i > 0 {
      Merge(p, i - 1, s, h, tail);
    } else {
      Merge(p, i, s, h, tail);
    }
  }

  lemma KidKeys(s: Shape, tail: Node?)
    requires s.Node? && Owns(s, tail)
    ensures |s.id.children| == |s.kids|
    ensures forall i :: 0 <= i < |s.kids| ==> s.id.children[i].keys == s.kids[i].keys
  {
    hide Ids, IdsAll, OwnsAll, Heads, First;
    OwnsTop(s, tail);
    forall i | 0 <= i < |s.kids|
      ensures s.kids[i].id.keys == s.kids[i].keys
    {
      OwnsChild(s, i, tail);
      OwnsTop(s.kids[i], FirstOf(s.kids[i + 1..], tail));
    }
  }

  // Removes the key from below n, which owns the shape s, if it is there.
  method Delete(n: Node, key: Key, min: nat, ghost s: Shape, ghost h: nat, ghost tail: Node?)
    returns (found: bool)
    requires min >= 1 && M.Shaped(s, h, 1) && Ordered(s) && s.id == n && Owns(s, tail)
    modifies Ids(s)
    ensures found <==> M.Delete(s, key, min, h).Some?
    ensures if found then Rewritten(M.Delete(s, key, min, h).value, s, tail) else Owns(s, tail)
    decreases h, 1
  {
    if n.leaf {
      var i := n.LeafIndex(key);
      if i >= |n.keys| || n.keys[i] != key {
        return false;
      }
      n.keys := n.keys[..i] + n.keys[i + 1..];
      n.rows := n.rows[..i] + n.rows[i + 1..];
      return true;
    } else {
      found := DeleteBelow(n, key, min, s, h, tail);
    }
  }

  lemma DeleteStep(s: Shape, key: Key, min: nat, h: nat)
    requires min >= 1 && M.Shaped(s, h, 1) && Ordered(s) && s.Node?
    ensures h > 0 && SortedKeys(s.keys) && |s.kids| == |s.keys| + 1
    ensures var i := M.ChildIndex(s.keys, key);
            && M.Shaped(s.kids[i], h - 1, 1) && Ordered(s.kids[i])
            && match M.Delete(s.kids[i], key, min, h - 1)
               case None => M.Delete(s, key, min, h) == None
               case Some(kid) =>
                 var p := M.Node(s.id, s.keys, s.kids[i := kid]);
                 && M.Wanting(p, i, h)
                 && M.Delete(s, key, min, h) == Some(if |kid.keys| < min then M.Repair(p, i, min, h) else p)
  {
    hide Less, M.Repair, M.ChildIndex;
    var i := M.ChildIndex(s.keys, key);
    var r := M.Delete(s.kids[i], key, min, h - 1);
    if r.Some? {
      M.AfterDeleteIsWanting(s, i, r.value, h);
    }
  }

  method DeleteBelow(n: Node, key: Key, min: nat, ghost s: Shape, ghost h: nat, ghost tail: Node?)
    returns (found: bool)
    requires min >= 1 && M.Shaped(s, h, 1) && Ordered(s) && s.Node? && s.id == n && Owns(s, tail)
    modifies Ids(s)
    ensures found <==> M.Delete(s, key, min, h).Some?
    ensures if found then Rewritten(M.Delete(s, key, min, h).value, s, tail) else Owns(s, tail)
    decreases h, 0
  {
    hide Less, Ids, IdsAll, Owns, OwnsAll, Heads, First, SortedKeys, Ordered;
    hide M.Shaped, M.Delete, M.Repair, M.ChildIndex, M.Wanting;
    OwnsTop(s, tail);
    DeleteStep(s, key, min, h);
    assert allocated(Ids(s));
    var i := n.ChildIndex(key);
    ChildIn(s, i);
    ghost var kid;
    found, kid := DeleteAmong(n, i, key, min, s, h, tail);
    if found {
      ghost var p := M.Node(n, s.keys, s.kids[i := kid]);
      KidKeys(p, tail);
      if |n.children[i].keys| < min {
        Repair(n, i, min, p, h, tail);
      }
    }
  }

  // Deletes from the i-th child; what is around it stays in order.
  method DeleteAmong(n: Node, i: nat, key: Key, min: nat, ghost s: Shape, ghost h: nat, ghost tail: Node?)
    returns (found: bool, ghost kid: Shape)
    requires min >= 1 && h > 0 && s.Node? && i < |s.kids| == |s.keys| + 1
    requires M.Shaped(s.kids[i], h - 1, 1) && Ordered(s.kids[i]) && s.id == n && Owns(s, tail)
    modifies Ids(s.kids[i])
    ensures var r := M.Delete(s.kids[i], key, min, h - 1);
            && (found <==> r.Some?)
            && (found ==> kid == r.value && Rewritten(M.Node(n, s.keys, s.kids[i := kid]), s, tail))
            && (!found ==> Owns(s, tail))
    decreases h - 1, 3
  {
    ghost var a, k, b := s.kids[..i], s.kids[i], s.kids[i + 1..];
    hide Less, Ids, IdsAll, Owns, OwnsAll, Heads, First, Ordered, M.Shaped, M.Delete;
    OwnsTop(s, tail);
    OwnsChild(s, i, tail);
    assert Apart(n, IdsAll(a), Ids(k), {}, IdsAll(b), Ids(s));
    assert M.Node(n, s.keys, s.kids[i := k]) == s;
    found := DeleteBetween(n.children[i], key, min, a, k, b, h - 1, tail);
    kid := if found then M.Delete(k, key, min, h - 1).value else k;
    assert Apart(n, IdsAll(a), Ids(kid), {}, IdsAll(b), Ids(s)) by {
      ApartLess(n, IdsAll(a), Ids(k), IdsAll(b), Ids(s), Ids(kid));
    }
    KidIsOwned(s, i, kid, tail);
  }

  lemma ApartLess(id: Node, a: set<Node>, x: set<Node>, b: set<Node>, all: set<Node>, x': set<Node>)
    requires Apart(id, a, x, {}, b, all) && x' <= x
    ensures Apart(id, a, x', {}, b, all)
  {
  }

  method DeleteBetween(n: Node, key: Key, min: nat, ghost a: seq<Shape>, ghost k: Shape, ghost b: seq<Shape>,
                       ghost h: nat, ghost tail: Node?)
    returns (found: bool)
    requires min >= 1 && M.Shaped(k, h, 1) && Ordered(k) && k.id == n
    requires OwnsAll(a, First(k)) && Owns(k, FirstOf(b, tail)) && OwnsAll(b, tail)
    requires IdsAll(a) !! Ids(k) && IdsAll(b) !! Ids(k)
    modifies Ids(k)
    ensures found <==> M.Delete(k, key, min, h).Some?
    ensures if found then Rewritten(M.Delete(k, key, min, h).value, k, FirstOf(b, tail)) else Owns(k, FirstOf(b, tail))
    ensures OwnsAll(a, First(k)) && OwnsAll(b, tail)
    decreases h, 2
  {
    hide Less, Ids, IdsAll, Owns, OwnsAll, First, Ordered, M.Shaped, M.Delete, Rewritten;
    assert allocated(IdsAll(a)) && allocated(IdsAll(b));
    found := Delete(n, key, min, k, h, FirstOf(b, tail));
  }

  lemma KidIsOwned(s: Shape, i: nat, kid: Shape, tail: Node?)
    requires s.Node? && i < |s.kids|
    requires !s.id.leaf && s.id.keys == s.keys && s.id.children == Heads(s.kids)
    requires kid.id == s.kids[i].id && First(kid) == First(s.kids[i])
    requires var a, b := s.kids[..i], s.kids[i + 1..];
             && OwnsAll(a, First(kid)) && Owns(kid, FirstOf(b, tail)) && OwnsAll(b, tail)
             && Apart(s.id, IdsAll(a), Ids(kid), {}, IdsAll(b), Ids(s))
    ensures Rewritten(M.Node(s.id, s.keys, s.kids[i := kid]), s, tail)
  {
    hide IdsAll, OwnsAll;
    var a, b := s.kids[..i], s.kids[i + 1..];
    var kids := s.kids[i := kid];
    assert kids == a + [kid] + b;
    OwnsOne(kid, FirstOf(b, tail));
    OwnsAround(a, [kid], b, tail);
    assert Heads(kids) == Heads(s.kids);
    NodeIsOwned(M.Node(s.id, s.keys, kids), tail);
  }
}
