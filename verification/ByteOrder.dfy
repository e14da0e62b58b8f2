// Byte strings in the order of bytes.Compare.
module ByteOrder {
  import opened Bytes

  type Key = seq<byte>

  predicate Less(a: Key, b: Key) {
    if b == [] then false
    else if a == [] then true
    else a[0] < b[0] || (a[0] == b[0] && Less(a[1..], b[1..]))
  }

  lemma {:induction false} LessIrreflexive(a: Key)
    ensures !Less(a, a)
  {
    if a != [] {
      LessIrreflexive(a[1..]);
    }
  }

  lemma {:induction false} LessTransitive(a: Key, b: Key, c: Key)
    requires Less(a, b) && Less(b, c)
    ensures Less(a, c)
  {
    if a != [] && a[0] == b[0] == c[0] {
      LessTransitive(a[1..], b[1..], c[1..]);
    }
  }

  lemma {:induction false} LessTotal(a: Key, b: Key)
    ensures Less(a, b) || Less(b, a) || a == b
  {
    if a != [] && b != [] && a[0] == b[0] {
      LessTotal(a[1..], b[1..]);
      assert a == [a[0]] + a[1..] && b == [b[0]] + b[1..];
    }
  }

  // The common prefix of two keys does not matter to their order.
  lemma {:induction false} LessAfterPrefix(p: Key, a: Key, b: Key)
    ensures Less(p + a, p + b) <==> Less(a, b)
  {
    if p == [] {
      assert p + a == a && p + b == b;
    } else {
      assert (p + a)[1..] == p[1..] + a && (p + b)[1..] == p[1..] + b;
      LessAfterPrefix(p[1..], a, b);
    }
  }

  // The first place where two keys differ decides, and where there is none, the shorter one comes first.
  lemma {:induction false} LessMeans(a: Key, b: Key)
    ensures Less(a, b) <==>
            || (|a| < |b| && a == b[..|a|])
            || (exists i :: 0 <= i < |a| && i < |b| && a[..i] == b[..i] && a[i] < b[i])
  {
    if a != [] && b != [] {
      LessMeans(a[1..], b[1..]);
      if a[0] == b[0] {
        SameFirst(a, b);
      } else if a[0] < b[0] {
        assert a[..0] == b[..0];
      } else {
        assert forall i :: 0 < i < |a| && i < |b| ==> a[..i][0] != b[..i][0];
        assert |a| < |b| ==> b[..|a|][0] != a[0];
      }
    }
  }

  lemma SameFirst(a: Key, b: Key)
    requires a != [] && b != [] && a[0] == b[0]
    ensures |a| <= |b| ==> (a == b[..|a|] <==> a[1..] == b[1..][..|a| - 1])
    ensures (exists i :: 0 <= i < |a| && i < |b| && a[..i] == b[..i] && a[i] < b[i]) <==>
            (exists i :: 0 <= i < |a[1..]| && i < |b[1..]| && a[1..][..i] == b[1..][..i] && a[1..][i] < b[1..][i])
  {
    if |a| <= |b| {
      assert b[..|a|] == [b[0]] + b[1..][..|a| - 1] && a == [a[0]] + a[1..];
    }
    if i :| 0 <= i < |a| && i < |b| && a[..i] == b[..i] && a[i] < b[i] {
      assert i > 0;
      var j := i - 1;
      assert a[1..][..j] == a[..i][1..] && b[1..][..j] == b[..i][1..];
      assert a[1..][j] < b[1..][j];
    }
    if j :| 0 <= j < |a[1..]| && j < |b[1..]| && a[1..][..j] == b[1..][..j] && a[1..][j] < b[1..][j] {
      var i := j + 1;
      assert a[..i] == [a[0]] + a[1..][..j] && b[..i] == [b[0]] + b[1..][..j];
      assert a[i] < b[i];
    }
  }

  // A key comes before all that extend it.
  lemma ShorterIsLess(a: Key, more: seq<byte>)
    ensures Less(a, a + more) <==> more != []
  {
    LessMeans(a, a + more);
    assert (a + more)[..|a|] == a;
    if more == [] {
      assert a + more == a;
      LessIrreflexive(a);
    }
  }
}
