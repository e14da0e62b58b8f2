// Spans of bytes that tile a range: every byte of the range lies in exactly one span, and no span reaches outside.
// Sorting by start and comparing neighbours decides it.
module Tiling {

  datatype Span = Span(lo: nat, hi: nat)

  predicate In(x: int, s: Span) {
    s.lo <= x < s.hi
  }

  // How many spans byte x lies in.
  ghost function Covers(spans: seq<Span>, x: int): nat {
    if spans == [] then 0 else (if In(x, spans[0]) then 1 else 0) + Covers(spans[1..], x)
  }

  ghost predicate Tiles(spans: seq<Span>, start: int, end: int) {
    forall x :: Covers(spans, x) == if start <= x < end then 1 else 0
  }

  lemma {:induction false} CoversAppend(a: seq<Span>, b: seq<Span>, x: int)
    ensures Covers(a + b, x) == Covers(a, x) + Covers(b, x)
  {
    if a == [] {
      assert a + b == b;
    } else {
      assert (a + b)[1..] == a[1..] + b;
      CoversAppend(a[1..], b, x);
    }
  }

  lemma {:induction false} CoversMember(spans: seq<Span>, i: nat, x: int)
    requires i < |spans| && In(x, spans[i])
    ensures Covers(spans, x) >= 1
  {
    if i > 0 {
      CoversMember(spans[1..], i - 1, x);
    }
  }

  lemma {:induction false} SomeCover(spans: seq<Span>, x: int) returns (i: nat)
    requires Covers(spans, x) >= 1
    ensures i < |spans| && In(x, spans[i])
  {
    if In(x, spans[0]) {
      i := 0;
    } else {
      i := SomeCover(spans[1..], x);
      i := i + 1;
    }
  }

  lemma CoversTwo(spans: seq<Span>, i: nat, j: nat, x: int)
    requires i < j < |spans|
    ensures Covers(spans, x) >= (if In(x, spans[i]) then 1 else 0) + if In(x, spans[j]) then 1 else 0
  {
    var a, b := spans[..j], spans[j..];
    assert spans == a + b;
    CoversAppend(a, b, x);
    if In(x, spans[i]) {
      CoversMember(a, i, x);
    }
    if In(x, spans[j]) {
      CoversMember(b, 0, x);
    }
  }

  // In a tiling, no byte belongs to two spans.
  lemma TilesAreDisjoint(spans: seq<Span>, start: int, end: int, i: nat, j: nat, x: int)
    requires Tiles(spans, start, end) && i < j < |spans|
    ensures !(In(x, spans[i]) && In(x, spans[j]))
  {
    CoversTwo(spans, i, j, x);
    assert Covers(spans, x) <= 1;
  }

  // One more span below.
  lemma TilesGrow(spans: seq<Span>, mid: int, end: int, s: Span)
    requires Tiles(spans, mid, end) && s.hi == mid && s.lo <= mid <= end
    ensures Tiles(spans + [s], s.lo, end)
  {
    forall x
      ensures Covers(spans + [s], x) == if s.lo <= x < end then 1 else 0
    {
      CoversAppend(spans, [s], x);
      assert [s][1..] == [];
    }
  }

  // ---------- the sizes add up ----------

  ghost function Total(spans: seq<Span>): int {
    if spans == [] then 0 else spans[0].hi - spans[0].lo + Total(spans[1..])
  }

  // The coverage of the bytes from a on, added up.
  ghost function Sum(spans: seq<Span>, a: int, b: int): int
    requires a <= b
    decreases b - a
  {
    if a == b then 0 else Covers(spans, a) + Sum(spans, a + 1, b)
  }

  lemma {:induction false} SumOne(spans: seq<Span>, a: int, b: int)
    requires spans != [] && a <= b
    requires spans[0].lo <= spans[0].hi <= b
    ensures Sum(spans, a, b) ==
            Sum(spans[1..], a, b) + if a <= spans[0].lo then spans[0].hi - spans[0].lo
                                    else if a < spans[0].hi then spans[0].hi - a else 0
    decreases b - a
  {
    if a < b {
      SumOne(spans, a + 1, b);
    }
  }

  lemma {:induction false} SumIsTotal(spans: seq<Span>, a: int, b: int)
    requires a <= b && forall i :: 0 <= i < |spans| ==> a <= spans[i].lo <= spans[i].hi <= b
    ensures Sum(spans, a, b) == Total(spans)
    decreases |spans|
  {
    if spans == [] {
      SumOfNone(a, b);
    } else {
      SumOne(spans, a, b);
      SumIsTotal(spans[1..], a, b);
    }
  }

  lemma {:induction false} SumOfNone(a: int, b: int)
    requires a <= b
    ensures Sum([], a, b) == 0
    decreases b - a
  {
    if a < b {
      SumOfNone(a + 1, b);
    }
  }

  lemma {:induction false} SumOfTiles(spans: seq<Span>, start: int, end: int, a: int)
    requires Tiles(spans, start, end) && start <= a <= end
    ensures Sum(spans, a, end) == end - a
    decreases end - a
  {
    if a < end {
      SumOfTiles(spans, start, end, a + 1);
    }
  }

  lemma TilesStayInside(spans: seq<Span>, start: int, end: int, i: nat)
    requires Tiles(spans, start, end) && i < |spans| && spans[i].lo < spans[i].hi
    ensures start <= spans[i].lo && spans[i].hi <= end
  {
    CoversMember(spans, i, spans[i].lo);
    CoversMember(spans, i, spans[i].hi - 1);
  }

  // The lengths of the spans of a tiling add up to the length of the range.
  lemma TilesTotal(spans: seq<Span>, start: int, end: int)
    requires Tiles(spans, start, end) && start <= end
    requires forall i :: 0 <= i < |spans| ==> spans[i].lo < spans[i].hi
    ensures Total(spans) == end - start
  {
    forall i | 0 <= i < |spans|
      ensures start <= spans[i].lo && spans[i].hi <= end
    {
      TilesStayInside(spans, start, end, i);
    }
    SumIsTotal(spans, start, end);
    SumOfTiles(spans, start, end, start);
  }

  // ---------- sorting ----------

  ghost predicate ByStart(spans: seq<Span>) {
    forall i, j :: 0 <= i < j < |spans| ==> spans[i].lo <= spans[j].lo
  }

  method InsertByStart(r: seq<Span>, s: Span) returns (r': seq<Span>)
    requires ByStart(r)
    ensures ByStart(r') && multiset(r') == multiset(r) + multiset{s} && |r'| == |r| + 1
  {
    var k := 0;
    while k < |r| && r[k].lo <= s.lo
      invariant k <= |r| && forall j :: 0 <= j < k ==> r[j].lo <= s.lo
    {
      k := k + 1;
    }
    assert r == r[..k] + r[k..];
    r' := r[..k] + [s] + r[k..];
  }

  // sort.Slice, of which no more is used than this contract says.
  method SortByStart(spans: seq<Span>) returns (r: seq<Span>)
    ensures ByStart(r) && multiset(r) == multiset(spans) && |r| == |spans|
  {
    hide ByStart;
    r := NoSpans();
    for n := 0 to |spans|
      invariant |r| == n && ByStart(r) && multiset(r) == multiset(spans[..n])
    {
      r := InsertByStart(r, spans[n]);
      assert spans[..n + 1] == spans[..n] + [spans[n]];
    }
    assert spans[..|spans|] == spans;
  }

  function NoSpans(): (r: seq<Span>)
    ensures r == [] && ByStart(r)
  {
    []
  }

  ghost function Without(b: seq<Span>, k: nat): seq<Span>
    requires k < |b|
  {
    b[..k] + b[k + 1..]
  }

  lemma WithoutOne(b: seq<Span>, k: nat, x: int)
    requires k < |b|
    ensures Covers(b, x) == Covers(Without(b, k), x) + if In(x, b[k]) then 1 else 0
    ensures multiset(b) == multiset(Without(b, k)) + multiset{b[k]}
  {
    var p, q := b[..k], b[k + 1..];
    assert b == p + ([b[k]] + q);
    assert ([b[k]] + q)[1..] == q;
    CoversAppend(p, [b[k]] + q, x);
    CoversAppend(p, q, x);
  }

  lemma Cancel(m: multiset<Span>, n: multiset<Span>, s: Span)
    requires m + multiset{s} == n + multiset{s}
    ensures m == n
  {
    forall t
      ensures m[t] == n[t]
    {
      assert (m + multiset{s})[t] == m[t] + multiset{s}[t] && (n + multiset{s})[t] == n[t] + multiset{s}[t];
    }
  }

  // Coverage does not depend on the order.
  lemma {:induction false} CoversOfPermutation(a: seq<Span>, b: seq<Span>, x: int)
    requires multiset(a) == multiset(b)
    ensures Covers(a, x) == Covers(b, x)
    decreases |a|
  {
    if a == [] {
      assert |b| == |multiset(b)|;
    } else {
      hide Without, In;
      assert a[0] in multiset(b);
      var k :| 0 <= k < |b| && b[k] == a[0];
      WithoutOne(b, k, x);
      assert a == [a[0]] + a[1..];
      assert multiset(a) == multiset(a[1..]) + multiset{a[0]};
      Cancel(multiset(a[1..]), multiset(Without(b, k)), a[0]);
      CoversOfPermutation(a[1..], Without(b, k), x);
    }
  }

  // Sorted spans run on from one to the next.
  ghost predicate Adjoining(spans: seq<Span>, start: int, end: int) {
    if spans == [] then start == end
    else spans[0].lo == start && Adjoining(spans[1..], spans[0].hi, end)
  }

  lemma {:induction false} AdjoiningIsTiling(spans: seq<Span>, start: int, end: int)
    requires ByStart(spans) && start <= end && forall i :: 0 <= i < |spans| ==> spans[i].lo < spans[i].hi <= end
    ensures Adjoining(spans, start, end) <==> Tiles(spans, start, end)
    decreases |spans|
  {
    if spans == [] {
      assert start < end ==> Covers([], start) == 0;
    } else {
      var s, rest := spans[0], spans[1..];
      AdjoiningIsTiling(rest, s.hi, end);
      if Adjoining(spans, start, end) {
        forall x
          ensures Covers(spans, x) == if start <= x < end then 1 else 0
        {
          assert Covers(rest, x) == if s.hi <= x < end then 1 else 0;
        }
      }
      if Tiles(spans, start, end) {
        TilesStayInside(spans, start, end, 0);
        var i := SomeCover(spans, start);
        assert s.lo <= spans[i].lo;
        forall x
          ensures Covers(rest, x) == if s.hi <= x < end then 1 else 0
        {
          assert Covers(spans, x) == if start <= x < end then 1 else 0;
        }
      }
    }
  }

  // ---------- tilings without counting ----------

  predicate Apart(s: Span, t: Span) {
    s.hi <= t.lo || t.hi <= s.lo
  }

  ghost predicate InSome(spans: seq<Span>, x: int) {
    exists i :: 0 <= i < |spans| && In(x, spans[i])
  }

  // Spans that are not empty tile a range exactly if each lies in it, no two overlap, and no byte is left out.
  lemma TilesMeans(spans: seq<Span>, start: int, end: int)
    requires forall i :: 0 <= i < |spans| ==> spans[i].lo < spans[i].hi
    ensures Tiles(spans, start, end) <==>
            && (forall i :: 0 <= i < |spans| ==> start <= spans[i].lo && spans[i].hi <= end)
            && (forall i, j :: 0 <= i < j < |spans| ==> Apart(spans[i], spans[j]))
            && (forall x :: start <= x < end ==> InSome(spans, x))
  {
    if Tiles(spans, start, end) {
      forall i | 0 <= i < |spans|
        ensures start <= spans[i].lo && spans[i].hi <= end
      {
        TilesStayInside(spans, start, end, i);
      }
      forall i, j | 0 <= i < j < |spans|
        ensures Apart(spans[i], spans[j])
      {
        TilesAreDisjoint(spans, start, end, i, j, spans[i].lo);
        TilesAreDisjoint(spans, start, end, i, j, spans[j].lo);
      }
      forall x | start <= x < end
        ensures InSome(spans, x)
      {
        var k := SomeCover(spans, x);
      }
    }
    if forall i, j :: 0 <= i < j < |spans| ==> Apart(spans[i], spans[j]) {
      forall x
        ensures Covers(spans, x) == if InSome(spans, x) then 1 else 0
      {
        CoversOnce(spans, x);
        if Covers(spans, x) >= 1 {
          var k := SomeCover(spans, x);
        }
        if i :| 0 <= i < |spans| && In(x, spans[i]) {
          CoversMember(spans, i, x);
        }
      }
    }
  }

  lemma {:induction false} CoversOnce(spans: seq<Span>, x: int)
    requires forall i, j :: 0 <= i < j < |spans| ==> Apart(spans[i], spans[j])
    ensures Covers(spans, x) <= 1
  {
    if spans != [] {
      CoversOnce(spans[1..], x);
      if Covers(spans[1..], x) >= 1 {
        var k := SomeCover(spans[1..], x);
        assert Apart(spans[0], spans[k + 1]);
      }
    }
  }
}
