// Filling a node page entry by entry, until one is refused.
module PageBuild {
  import opened ByteOrder
  import opened SortedEntries
  import opened PageLayout
  import opened SlottedPage
  import opened NodePage

  // What an internal page keeps beside a key.
  datatype Branch = Branch(key: Key, child: PageId)

  function KeysOf(es: seq<Entry>): (ks: seq<Key>)
    ensures |ks| == |es| && forall i :: 0 <= i < |es| ==> ks[i] == es[i].key
  {
    seq(|es|, i requires 0 <= i < |es| => es[i].key)
  }

  function RowsOf(es: seq<Entry>): (rs: seq<RowId>)
    ensures |rs| == |es| && forall i :: 0 <= i < |es| ==> rs[i] == es[i].row
  {
    seq(|es|, i requires 0 <= i < |es| => es[i].row)
  }

  function BranchKeys(bs: seq<Branch>): (ks: seq<Key>)
    ensures |ks| == |bs| && forall i :: 0 <= i < |bs| ==> ks[i] == bs[i].key
  {
    seq(|bs|, i requires 0 <= i < |bs| => bs[i].key)
  }

  function ChildrenOf(bs: seq<Branch>): (cs: seq<PageId>)
    ensures |cs| == |bs| && forall i :: 0 <= i < |bs| ==> cs[i] == bs[i].child
  {
    seq(|bs|, i requires 0 <= i < |bs| => bs[i].child)
  }

  ghost predicate InUse(p: Page) {
    Laid(p, 0) && CellsFit(p, 0)
  }

  // Strictly increasing, not empty, and above the keys the page has.
  ghost predicate Ascend(p: Page, keys: seq<Key>)
    requires CellsFit(p, 0)
  {
    && (forall i, j :: 0 <= i < j < |keys| ==> Less(keys[i], keys[j]))
    && (forall i :: 0 <= i < |keys| ==> keys[i] != [])
    && (keys != [] && ItemCount(p) > 0 ==> Less(KeyRef(p, ItemCount(p) - 1), keys[0]))
  }

  predicate Takes(p: Page, key: Key) {
    SLOT_SIZE + |key| + SuffixLen(p) <= FreeSpace(p)
  }

  // n of the keys offered have been taken, in order and on top of those that were there.
  ghost predicate Taken(p: Page, q: Page, keys: seq<Key>, n: nat) {
    && InUse(p) && InUse(q) && SameNode(q, p) && n <= |keys| && Keys(q) == Keys(p) + keys[..n]
    && (Valid(p) && Ascend(p, keys) ==> Valid(q))
  }

  lemma NothingTaken(p: Page, keys: seq<Key>)
    requires InUse(p)
    ensures Taken(p, p, keys, 0)
  {
    hide Laid, CellsFit, Valid, Ascend;
    assert Keys(p) + keys[..0] == Keys(p);
  }

  lemma OneTaken(p: Page, q: Page, q': Page, keys: seq<Key>, n: nat)
    requires Taken(p, q, keys, n) && n < |keys|
    requires SameNode(q', q) && InUse(q') && Keys(q') == Keys(q) + [keys[n]]
    requires Valid(q) ==> (Valid(q') <==> Extends(q, keys[n]))
    ensures Taken(p, q', keys, n + 1)
  {
    hide Laid, CellsFit, Valid, Less, KeyRef;
    assert Keys(q) + [keys[n]] == Keys(p) + keys[..n + 1];
    if Valid(p) && Ascend(p, keys) && ItemCount(q) > 0 {
      var m := ItemCount(q) as int - 1;
      assert KeyRef(q, m) == Keys(q)[m];
      if n > 0 {
        assert Keys(q)[m] == keys[n - 1];
      } else {
        assert Keys(q)[m] == Keys(p)[m] == KeyRef(p, m);
      }
    }
  }

  // On a page that was empty, keys of one length are taken up to exactly MaxKeys.
  lemma TakenIsMaxKeys(p: Page, q: Page, keys: seq<Key>, n: nat, keyLen: nat)
    requires Taken(p, q, keys, n) && ItemCount(p) == 0 && (n < |keys| ==> !Takes(q, keys[n]))
    requires forall i :: 0 <= i < |keys| ==> |keys[i]| == keyLen
    ensures n == if |keys| <= MaxKeys(IsLeaf(p), keyLen) then |keys| else MaxKeys(IsLeaf(p), keyLen)
  {
    hide Laid, CellsFit, Valid, Ascend, MaxKeys, KeyRef;
    assert Keys(p) == [] && Keys(q) == keys[..n];
    EqualKeysFill(q, keyLen);
  }

  predicate EqualLengths(keys: seq<Key>) {
    forall i :: 0 <= i < |keys| ==> |keys[i]| == |keys[0]|
  }

  // Whatever is appended, the page returns what it took as it was given, after what it had, and stops only where the
  // next entry does not fit. Keys in order keep it valid. A page that was empty takes exactly MaxKeys keys of one
  // length.
  method FillLeaf(n: Node, es: seq<Entry>) returns (taken: nat)
    requires n.Sized() && InUse(n.Bytes()) && IsLeaf(n.Bytes())
    modifies n.page
    ensures Taken(old(n.Bytes()), n.Bytes(), KeysOf(es), taken) && IsLeaf(n.Bytes())
    ensures Rows(n.Bytes()) == Rows(old(n.Bytes())) + RowsOf(es[..taken])
    ensures taken < |es| ==> !Takes(n.Bytes(), es[taken].key)
    ensures es != [] && EqualLengths(KeysOf(es)) && ItemCount(old(n.Bytes())) == 0 ==>
              taken == if |es| <= MaxKeys(true, |es[0].key|) then |es| else MaxKeys(true, |es[0].key|)
  {
    hide Laid, CellsFit, Valid, Less, Taken, Keys, Rows, Appended, Spacious, FreeSpace, MaxKeys, KeyRef,
      RowTail, SameNode;
    ghost var p := n.Bytes();
    NothingTaken(p, KeysOf(es));
    assert Rows(p) + RowsOf(es[..0]) == Rows(p);
    taken := 0;
    while taken < |es|
      invariant taken <= |es| && InUse(n.Bytes()) && IsLeaf(n.Bytes())
      invariant Taken(p, n.Bytes(), KeysOf(es), taken)
      invariant Rows(n.Bytes()) == Rows(p) + RowsOf(es[..taken])
    {
      ghost var q := n.Bytes();
      LaidIsSpacious(q, es[taken].key, RowTail(es[taken].row));
      var err := n.AppendLeaf(es[taken].key, es[taken].row);
      if err.Some? {
        break;
      }
      LaidCells(n.Bytes());
      StillKind(n.Bytes(), q);
      OneTaken(p, q, n.Bytes(), KeysOf(es), taken);
      assert RowsOf(es[..taken + 1]) == RowsOf(es[..taken]) + [es[taken].row];
      taken := taken + 1;
    }
    if es != [] && EqualLengths(KeysOf(es)) && ItemCount(p) == 0 {
      TakenIsMaxKeys(p, n.Bytes(), KeysOf(es), taken, |es[0].key|);
    }
  }

  lemma StillKind(q': Page, q: Page)
    requires SameNode(q', q)
    ensures IsLeaf(q') == IsLeaf(q)
  {
  }

  // Likewise for keys and children.
  method FillInternal(n: Node, bs: seq<Branch>) returns (taken: nat)
    requires n.Sized() && InUse(n.Bytes()) && !IsLeaf(n.Bytes())
    modifies n.page
    ensures Taken(old(n.Bytes()), n.Bytes(), BranchKeys(bs), taken) && !IsLeaf(n.Bytes())
    ensures Children(n.Bytes()) == Children(old(n.Bytes())) + ChildrenOf(bs[..taken])
    ensures taken < |bs| ==> !Takes(n.Bytes(), bs[taken].key)
    ensures bs != [] && EqualLengths(BranchKeys(bs)) && ItemCount(old(n.Bytes())) == 0 ==>
              taken == if |bs| <= MaxKeys(false, |bs[0].key|) then |bs| else MaxKeys(false, |bs[0].key|)
  {
    hide Laid, CellsFit, Valid, Less, Taken, Keys, Children, Appended, Spacious, FreeSpace, MaxKeys, KeyRef,
      ChildTail, SameNode;
    ghost var p := n.Bytes();
    NothingTaken(p, BranchKeys(bs));
    assert Children(p) + ChildrenOf(bs[..0]) == Children(p);
    taken := 0;
    while taken < |bs|
      invariant taken <= |bs| && InUse(n.Bytes()) && !IsLeaf(n.Bytes())
      invariant Taken(p, n.Bytes(), BranchKeys(bs), taken)
      invariant Children(n.Bytes()) == Children(p) + ChildrenOf(bs[..taken])
    {
      ghost var q := n.Bytes();
      LaidIsSpacious(q, bs[taken].key, ChildTail(bs[taken].child));
      var err := n.AppendInternal(bs[taken].key, bs[taken].child);
      if err.Some? {
        break;
      }
      LaidCells(n.Bytes());
      StillKind(n.Bytes(), q);
      OneTaken(p, q, n.Bytes(), BranchKeys(bs), taken);
      assert ChildrenOf(bs[..taken + 1]) == ChildrenOf(bs[..taken]) + [bs[taken].child];
      taken := taken + 1;
    }
    if bs != [] && EqualLengths(BranchKeys(bs)) && ItemCount(p) == 0 {
      TakenIsMaxKeys(p, n.Bytes(), BranchKeys(bs), taken, |bs[0].key|);
    }
  }
}
