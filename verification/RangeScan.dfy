// The range iterator: a position in the leaf chain that moves on by itself. It is specified over a tree that does
// not change while it is in use.
module RangeScan {
  import opened ByteOrder
  import opened SortedEntries
  import opened Outcomes
  import opened BTreeInvariant
  import opened LinkedNodes
  import M = BTreeModel

  // The entries up to the first key that is not below to.
  ghost function UpTo(es: seq<Entry>, to: Option<Key>): seq<Entry> {
    if es == [] || !Below(es[0].key, to) then [] else [es[0]] + UpTo(es[1..], to)
  }

  // The entries with from <= key < to, in the order they come.
  ghost function Between(es: seq<Entry>, from: Key, to: Option<Key>): seq<Entry> {
    if es == [] then []
    else if AtLeast(es[0].key, Some(from)) && Below(es[0].key, to) then [es[0]] + Between(es[1..], from, to)
    else Between(es[1..], from, to)
  }

  // Between keeps exactly the entries in range, and their order.
  lemma {:induction false} BetweenIsRange(es: seq<Entry>, from: Key, to: Option<Key>, e: Entry)
    requires Sorted(es)
    ensures e in Between(es, from, to) <==> e in es && AtLeast(e.key, Some(from)) && Below(e.key, to)
    ensures Sorted(Between(es, from, to))
  {
    hide Less;
    if es != [] {
      SortedRest(es);
      BetweenIsRange(es[1..], from, to, e);
      var rest := Between(es[1..], from, to);
      forall k | 0 <= k < |rest|
        ensures Less(es[0].key, rest[k].key)
      {
        BetweenIsRange(es[1..], from, to, rest[k]);
        assert rest[k] in es[1..];
      }
      assert es == [es[0]] + es[1..];
    }
  }

  lemma SortedRest(es: seq<Entry>)
    requires Sorted(es) && es != []
    ensures Sorted(es[1..]) && forall e :: e in es[1..] ==> Less(es[0].key, e.key)
  {
  }

  // With everything below from skipped, the iterator only has to stop in time.
  lemma {:induction false} UpToIsBetween(es: seq<Entry>, i: nat, from: Key, to: Option<Key>)
    requires Sorted(es) && i <= |es|
    requires AllBelow(es[..i], from) && (i < |es| ==> !Less(es[i].key, from))
    ensures UpTo(es[i..], to) == Between(es, from, to)
    decreases |es|
  {
    hide Less;
    if i > 0 {
      SortedRest(es);
      var front, front' := es[..i], es[1..][..i - 1];
      assert front[0] == es[0] && forall k :: 0 <= k < i - 1 ==> front'[k] == front[k + 1];
      assert es[1..][i - 1..] == es[i..];
      UpToIsBetween(es[1..], i - 1, from, to);
    } else if es != [] {
      SortedRest(es);
      assert es[0..] == es && es[1..][0..] == es[1..];
      if |es| > 1 && Less(es[1].key, from) {
        LessTransitive(es[0].key, es[1].key, from);
      }
      UpToIsBetween(es[1..], 0, from, to);
      if !Below(es[0].key, to) {
        NoneBelow(es[1..], es[0].key, from, to);
      }
    }
  }

  lemma {:induction false} NoneBelow(es: seq<Entry>, k: Key, from: Key, to: Option<Key>)
    requires !Below(k, to) && forall e :: e in es ==> Less(k, e.key)
    ensures Between(es, from, to) == []
  {
    hide Less;
    if es != [] {
      LessTransitiveBelow(k, es[0].key, to);
      NoneBelow(es[1..], k, from, to);
    }
  }

  lemma LessTransitiveBelow(a: Key, b: Key, to: Option<Key>)
    requires Less(a, b) && !Below(a, to)
    ensures !Below(b, to)
  {
    hide Less;
    if Less(b, to.value) {
      LessTransitive(a, b, to.value);
    }
  }

  lemma UpToStep(es: seq<Entry>, to: Option<Key>)
    ensures es == [] || !Below(es[0].key, to) ==> UpTo(es, to) == []
    ensures es != [] && Below(es[0].key, to) ==>
              UpTo(es, to) != [] && UpTo(es, to)[0] == es[0] && UpTo(es, to)[1..] == UpTo(es[1..], to)
  {
  }

  ghost predicate AllLeaves(ls: seq<Shape>) {
    forall l :: l in ls ==> l.Leaf? && |l.rows| == |l.keys|
  }

  class Iterator {
    var n: Node?
    var i: nat
    var to: Option<Key>
    var key: Key
    var rid: RowId
    var done: bool
    // The leaves from n on.
    ghost var rest: seq<Shape>

    constructor (n: Node?, i: nat, to: Option<Key>, done: bool, ghost rest: seq<Shape>)
      ensures this.n == n && this.i == i && this.to == to && this.done == done && this.rest == rest
    {
      this.n, this.i, this.to, this.done, this.rest := n, i, to, done, rest;
      this.key, this.rid := [], RowId(0, 0);
    }

    ghost predicate Valid()
      reads this, IdsAll(rest)
    {
      && OwnsAll(rest, null) && AllLeaves(rest)
      && if rest == [] then n == null else n == rest[0].id && i <= |rest[0].keys|
    }

    // The entries from the position on.
    ghost function Ahead(): seq<Entry>
      requires Valid()
      reads this, IdsAll(rest)
    {
      if rest == [] then [] else
        FirstEntries(rest);
        M.FlatAll(rest)[i..]
    }

    // What it will still yield.
    ghost function Pending(): seq<Entry>
      requires Valid()
      reads this, IdsAll(rest)
    {
      if done then [] else UpTo(Ahead(), to)
    }

    // Moves to the next leaf that has an entry left.
    method SkipExhausted()
      requires Valid() && !done
      modifies this`n, this`i, this`rest
      ensures Valid() && Ahead() == old(Ahead())
      ensures rest != [] ==> i < |rest[0].keys|
    {
      hide OwnsAll, IdsAll, Owns, AllLeaves, M.FlatAll;
      if rest != [] {
        Here(rest, i);
      }
      while n != null && i >= |n.keys|
        invariant Valid() && Ahead() == old(Ahead())
        invariant rest != [] ==> rest[0].id.keys == rest[0].keys
        decreases |rest|
      {
        Advance(rest);
        assert allocated(IdsAll(rest[1..]));
        n := n.next;
        i := 0;
        rest := rest[1..];
        if rest != [] {
          Here(rest, i);
        }
      }
    }

    method Next() returns (ok: bool)
      requires Valid()
      modifies this
      ensures Valid()
      ensures ok <==> old(Pending()) != []
      ensures ok ==> Entry(key, rid) == old(Pending())[0] && Pending() == old(Pending())[1..]
      ensures !ok ==> Pending() == [] && key == old(key) && rid == old(rid)
    {
      hide OwnsAll, IdsAll, Owns, AllLeaves, M.FlatAll, Less, UpTo;
      UpToStep(Ahead(), to);
      if done {
        return false;
      }
      SkipExhausted();
      assert allocated(IdsAll(rest));
      if n == null {
        done := true;
        return false;
      }
      Here(rest, i);
      var k := n.keys[i];
      if to.Some? && !Less(k, to.value) {
        done := true;
        return false;
      }
      key := k;
      rid := n.rows[i];
      i := i + 1;
      return true;
    }

    method Close()
      requires Valid()
      modifies this
      ensures Valid() && Pending() == []
    {
      done := true;
      n := null;
      rest := [];
    }
  }

  // The entry at a position.
  lemma Here(ls: seq<Shape>, i: nat)
    requires AllLeaves(ls) && OwnsAll(ls, null) && ls != [] && i <= |ls[0].keys|
    ensures ls[0].Leaf? && ls[0].id.keys == ls[0].keys && ls[0].id.rows == ls[0].rows && |ls[0].rows| == |ls[0].keys|
    ensures |M.FlatAll(ls)| >= |ls[0].keys|
    ensures i < |ls[0].keys| ==>
              && M.FlatAll(ls)[i..] != [] && M.FlatAll(ls)[i..][0] == Entry(ls[0].keys[i], ls[0].rows[i])
              && M.FlatAll(ls)[i..][1..] == M.FlatAll(ls)[i + 1..]
  {
    FirstEntries(ls);
    assert ls[0] in ls;
  }

  lemma FirstEntries(ls: seq<Shape>)
    requires AllLeaves(ls) && ls != []
    ensures |M.FlatAll(ls)| >= |ls[0].keys|
    ensures forall i :: 0 <= i < |ls[0].keys| ==> M.FlatAll(ls)[i] == Entry(ls[0].keys[i], ls[0].rows[i])
    ensures M.FlatAll(ls)[|ls[0].keys|..] == M.FlatAll(ls[1..])
  {
  }

  lemma Advance(ls: seq<Shape>)
    requires AllLeaves(ls) && OwnsAll(ls, null) && ls != []
    ensures |M.FlatAll(ls)| >= |ls[0].keys|
    ensures ls[0].id.next == FirstOf(ls[1..], null) && ls[0].id.keys == ls[0].keys && AllLeaves(ls[1..])
    ensures ls[1..] != [] ==> ls[1].Leaf? && First(ls[1]) == ls[1].id
    ensures OwnsAll(ls[1..], null)
    ensures M.FlatAll(ls)[|ls[0].keys|..] == if ls[1..] == [] then [] else M.FlatAll(ls[1..])[0..]
  {
    FirstEntries(ls);
    assert ls[0] in ls;
    if ls[1..] != [] {
      assert ls[1] in ls;
    }
  }
}
