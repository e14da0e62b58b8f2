// Variable-length integers of internal/codec: seven bits to a byte, the low ones first, the top bit set on all but
// the last. Words are integers below 2^64. Where the source joins disjoint bits with |, the model adds, and where it
// exclusive-ors with all ones, the model complements.
module Varint {
  import opened Bytes

  const TWO_TO_THE_64: int := 0x1_0000_0000_0000_0000
  const TWO_TO_THE_63: int := 0x8000_0000_0000_0000

  type u64 = x: int | 0 <= x < 0x1_0000_0000_0000_0000
  type i64 = x: int | -0x8000_0000_0000_0000 <= x < 0x8000_0000_0000_0000

  const MAX_VARINT_LEN: nat := 10

  datatype Failure = Truncated | Overflow
  datatype Read<+T> = Value(value: T, n: nat) | Failed(why: Failure)

  // The canonical encoding.
  function Encoded(v: nat): (bs: seq<byte>)
    ensures bs != []
  {
    if v < 128 then [v] else [v % 128 + 128] + Encoded(v / 128)
  }

  function Pow128(n: nat): (p: nat)
    ensures p >= 1
  {
    if n == 0 then 1 else 128 * Pow128(n - 1)
  }

  // The number a byte sequence spells, whether or not its top bits are right.
  function Spelled(bs: seq<byte>): nat {
    if bs == [] then 0 else bs[0] % 128 + 128 * Spelled(bs[1..])
  }

  // How many bytes go by before one ends the number.
  function Leading(src: seq<byte>): (k: nat)
    ensures k <= |src|
    ensures forall j :: 0 <= j < k ==> src[j] >= 128
    ensures k < |src| ==> src[k] < 128
  {
    if src == [] || src[0] < 128 then 0 else 1 + Leading(src[1..])
  }

  // What reading a number from the front of src gives.
  function ReadUvarint(src: seq<byte>): Read<u64> {
    var k := Leading(src);
    if k >= 9 then
      if |src| == 9 then Failed(Truncated)
      else if src[9] > 1 then Failed(Overflow)
      else TenBytesFit(src[..10]); Value(Spelled(src[..10]), 10)
    else if k == |src| then Failed(Truncated)
    else SpelledFits(src[..k + 1]); Value(Spelled(src[..k + 1]), k + 1)
  }

  lemma Powers()
    ensures Pow128(9) == TWO_TO_THE_63 && Pow128(10) > TWO_TO_THE_64
  {
    assert Pow128(3) == 128 * 128 * 128;
    assert Pow128(6) == 128 * 128 * 128 * Pow128(3);
    assert Pow128(9) == 128 * 128 * 128 * Pow128(6);
  }

  lemma {:induction false} SpelledBound(bs: seq<byte>)
    ensures Spelled(bs) < Pow128(|bs|)
  {
    if bs != [] {
      SpelledBound(bs[1..]);
    }
  }

  lemma {:induction false} PowMono(a: nat, b: nat)
    requires a <= b
    ensures Pow128(a) <= Pow128(b)
  {
    if a < b {
      PowMono(a, b - 1);
    }
  }

  lemma SpelledFits(bs: seq<byte>)
    requires |bs| <= 9
    ensures Spelled(bs) < TWO_TO_THE_63
  {
    SpelledBound(bs);
    PowMono(|bs|, 9);
    Powers();
  }

  // The bits of one more byte land above those before it.
  lemma {:induction false} SpelledSnoc(bs: seq<byte>, b: byte)
    ensures Spelled(bs + [b]) == Spelled(bs) + b % 128 * Pow128(|bs|)
  {
    if bs == [] {
      assert bs + [b] == [b] && [b][1..] == [];
    } else {
      assert (bs + [b])[1..] == bs[1..] + [b];
      SpelledSnoc(bs[1..], b);
      MulAcross(b % 128, Pow128(|bs| - 1));
    }
  }

  lemma MulAcross(x: nat, y: nat)
    ensures x * (128 * y) == 128 * (x * y)
  {
  }

  lemma TenBytesFit(bs: seq<byte>)
    requires |bs| == 10 && bs[9] <= 1
    ensures Spelled(bs) < TWO_TO_THE_64
  {
    assert bs == bs[..9] + [bs[9]];
    SpelledSnoc(bs[..9], bs[9]);
    SpelledFits(bs[..9]);
    Powers();
    assert bs[9] == 0 || bs[9] == 1;
  }

  lemma SpelledNone()
    ensures Spelled([]) == 0 && Pow128(0) == 1 && forall n: nat :: Pow128(n + 1) == 128 * Pow128(n)
  {
  }

  lemma ReadFits(src: seq<byte>, i: nat)
    requires i < |src| && i <= 9 && (i == 9 ==> src[9] <= 1)
    ensures Spelled(src[..i + 1]) < TWO_TO_THE_64
  {
    if i == 9 {
      TenBytesFit(src[..10]);
    } else {
      SpelledFits(src[..i + 1]);
    }
  }

  // ---------- the loops ----------

  method AppendUvarint(dst: seq<byte>, v: u64) returns (out: seq<byte>)
    ensures out == dst + Encoded(v)
  {
    out := dst;
    var w := v;
    while w >= 0x80
      invariant 0 <= w < TWO_TO_THE_64
      invariant out + Encoded(w) == dst + Encoded(v)
    {
      assert out + Encoded(w) == (out + [w % 128 + 128]) + Encoded(w / 128);
      out := out + [w % 128 + 128];
      w := w / 128;
    }
    out := out + [w];
  }

  method Uvarint(src: seq<byte>) returns (r: Read<u64>)
    ensures r == ReadUvarint(src)
  {
    hide Spelled, Pow128;
    SpelledNone();
    var x: int := 0;
    var weight := 1;
    for i := 0 to |src|
      invariant i <= Leading(src) && i <= 9
      invariant x == Spelled(src[..i]) && weight == Pow128(i)
    {
      var b: int := src[i];
      if i == MAX_VARINT_LEN - 1 && b > 1 {
        return Failed(Overflow);
      }
      assert src[..i + 1] == src[..i] + [b];
      SpelledSnoc(src[..i], b);
      if b < 0x80 {
        assert b % 128 == b;
        ReadFits(src, i);
        return Value(x + b * weight, i + 1);
      }
      x := x + b % 128 * weight;
      weight := weight * 128;
    }
    return Failed(Truncated);
  }

  method UvarintLen(v: u64) returns (n: nat)
    ensures n == |Encoded(v)|
  {
    n := 1;
    var w: int := v;
    while w >= 0x80
      invariant 0 <= w && n + |Encoded(w)| == 1 + |Encoded(v)|
    {
      w := w / 128;
      n := n + 1;
    }
  }

  // ---------- what the encoding promises ----------

  lemma {:induction false} EncodedShape(v: nat)
    ensures Leading(Encoded(v)) == |Encoded(v)| - 1 && Spelled(Encoded(v)) == v
    ensures v < Pow128(|Encoded(v)|) && (v < 128 ==> |Encoded(v)| == 1)
    ensures v >= 128 ==> v >= Pow128(|Encoded(v)| - 1)
  {
    hide Encoded, Leading, Spelled, Pow128;
    if v < 128 {
      OneByte(v);
    } else {
      var rest := Encoded(v / 128);
      EncodedShape(v / 128);
      EncodedPrepend(v % 128 + 128, v / 128);
      Prepend(v % 128 + 128, rest);
      PowStep(|rest|);
      if v / 128 >= 128 {
        PowStep(|rest| - 1);
      } else {
        OneByte(v / 128);
      }
      Groups(v, Pow128(|rest|), if v / 128 >= 128 then Pow128(|rest| - 1) else 1);
    }
  }

  lemma OneByte(v: byte)
    ensures v < 128 ==> Encoded(v) == [v]
    ensures Leading([v]) == (if v < 128 then 0 else 1) && Spelled([v]) == v % 128 && Pow128(0) == 1 && Pow128(1) == 128
  {
    assert [v][1..] == [];
  }

  lemma PowStep(n: nat)
    ensures Pow128(n + 1) == 128 * Pow128(n)
  {
  }

  lemma Prepend(b: byte, rest: seq<byte>)
    requires b >= 128
    ensures Leading([b] + rest) == 1 + Leading(rest) && Spelled([b] + rest) == b - 128 + 128 * Spelled(rest)
  {
    assert ([b] + rest)[1..] == rest;
  }

  lemma EncodedPrepend(b: byte, w: nat)
    requires b >= 128 && w > 0
    ensures Encoded(b - 128 + 128 * w) == [b] + Encoded(w)
  {
  }

  lemma Groups(v: nat, above: nat, below: nat)
    ensures v % 128 + 128 * (v / 128) == v
    ensures v / 128 < above ==> v < 128 * above
    ensures v / 128 >= below ==> v >= 128 * below
  {
  }

  // An encoding has as many bytes as the value has groups of seven bits.
  lemma EncodedLength(v: nat, n: nat)
    ensures |Encoded(v)| == n <==> n >= 1 && v < Pow128(n) && (n > 1 ==> v >= Pow128(n - 1))
  {
    hide Encoded, Spelled, Leading, Pow128;
    EncodedShape(v);
    var k := |Encoded(v)|;
    if n < k && n >= 1 {
      PowMono(n, k - 1);
    }
    if n > k {
      PowMono(k, n - 1);
    }
  }

  lemma AtMostTen(v: u64)
    ensures |Encoded(v)| <= MAX_VARINT_LEN
    ensures |Encoded(v)| == 10 ==> Encoded(v)[9] <= 1
  {
    hide Encoded, Spelled, Leading, Pow128;
    EncodedShape(v);
    Powers();
    var bs := Encoded(v);
    if |bs| > 10 {
      PowMono(10, |bs| - 1);
    }
    if |bs| == 10 {
      assert bs == bs[..9] + [bs[9]];
      SpelledSnoc(bs[..9], bs[9]);
      assert bs[9] % 128 == bs[9];
      TopBit(bs[9], v);
    }
  }

  lemma TopBit(b: nat, v: u64)
    requires b * TWO_TO_THE_63 <= v
    ensures b <= 1
  {
  }

  // Leading bytes are the same whatever follows the last one.
  lemma {:induction false} LeadingAppend(a: seq<byte>, b: seq<byte>)
    requires Leading(a) < |a|
    ensures Leading(a + b) == Leading(a)
  {
    assert (a + b)[0] == a[0];
    if a[0] >= 128 {
      assert (a + b)[1..] == a[1..] + b;
      LeadingAppend(a[1..], b);
    }
  }

  // What was encoded is read back, whatever follows it.
  lemma UvarintRoundTrip(v: u64, rest: seq<byte>)
    ensures ReadUvarint(Encoded(v) + rest) == Value(v, |Encoded(v)|)
  {
    var bs := Encoded(v);
    EncodedShape(v);
    AtMostTen(v);
    LeadingAppend(bs, rest);
    assert (bs + rest)[..|bs|] == bs;
    assert |bs| == 10 ==> (bs + rest)[9] == bs[9];
  }

  // Seven bits to a byte, the low ones first: byte j has the j-th group of them, and the top bit on all but the last.
  lemma {:induction false} EncodedDigit(v: nat, j: nat)
    requires j < |Encoded(v)|
    ensures Encoded(v)[j] == v / Pow128(j) % 128 + if j + 1 < |Encoded(v)| then 128 else 0
  {
    if j > 0 {
      EncodedDigit(v / 128, j - 1);
      DivTwice(v, 128, Pow128(j - 1));
    }
  }

  lemma DivTwice(v: nat, d: nat, p: nat)
    requires d > 0 && p > 0
    ensures d * p > 0 && v / d / p == v / (d * p)
  {
    DivBy(v, d, p, v / d, v / d / p, v / d % p, v % d);
  }

  lemma DivBy(v: nat, d: nat, p: nat, w: nat, q: nat, r: nat, low: nat)
    requires v == d * w + low && w == q * p + r && r < p && low < d
    ensures d * p > 0 && v / (d * p) == q
  {
    Product(d, p);
    MulOver(d, q, p);
    Spread(d, q * p, r);
    Room(d, p, r, low);
    DivUnique(v, d * p, q, d * r + low);
  }

  lemma Product(d: nat, p: nat)
    requires d > 0 && p > 0
    ensures d * p > 0
  {
  }

  lemma MulOver(d: nat, q: nat, p: nat)
    ensures d * (q * p) == q * (d * p)
  {
  }

  lemma Spread(d: nat, x: nat, r: nat)
    ensures d * (x + r) == d * x + d * r
  {
  }

  lemma Room(d: nat, p: nat, r: nat, low: nat)
    requires r < p && low < d
    ensures d * r + low < d * p
  {
    Spread(d, r, p - r);
    MoreThanOnce(d, p - r);
  }

  lemma MoreThanOnce(d: nat, k: nat)
    requires k >= 1
    ensures d * k >= d
  {
  }

  lemma DivUnique(v: nat, d: nat, q: nat, r: nat)
    requires d > 0 && v == q * d + r && r < d
    ensures v / d == q
  {
    var k := v / d - q;
    assert k * d == r - v % d;
    NoMultiple(k, d);
  }

  lemma NoMultiple(k: int, d: int)
    requires -d < k * d < d
    ensures k == 0
  {
  }

  // A whole number and nothing else: at most ten bytes, the top bit on all but the last, and no more than 64 bits.
  predicate IsVarint(bs: seq<byte>) {
    && 1 <= |bs| <= 10 && bs[|bs| - 1] < 128 && (|bs| == 10 ==> bs[9] <= 1)
    && forall j :: 0 <= j < |bs| - 1 ==> bs[j] >= 128
  }

  // What is read is the number the bytes up to the first without a top bit spell, padded or not.
  lemma ReadMeans(src: seq<byte>, v: u64, n: nat)
    ensures ReadUvarint(src) == Value(v, n) <==> n <= |src| && IsVarint(src[..n]) && Spelled(src[..n]) == v
  {
    hide Spelled, Encoded, Pow128;
    if n <= |src| && IsVarint(src[..n]) {
      LeadingIs(src, n - 1);
      if n == 10 {
        TenBytesFit(src[..10]);
      } else {
        SpelledFits(src[..n]);
      }
    }
  }

  lemma {:induction false} LeadingIs(src: seq<byte>, k: nat)
    requires k < |src| && src[k] < 128 && forall j :: 0 <= j < k ==> src[j] >= 128
    ensures Leading(src) == k
  {
  }

  // The bytes spell the sum of their groups, each worth 128 times the one before.
  lemma {:induction false} SpelledSum(bs: seq<byte>)
    ensures Spelled(bs) == if bs == [] then 0
                           else Spelled(bs[..|bs| - 1]) + bs[|bs| - 1] % 128 * Pow128(|bs| - 1)
  {
    if bs != [] {
      var n := |bs| - 1;
      assert bs == bs[..n] + [bs[n]];
      SpelledSnoc(bs[..n], bs[n]);
    }
  }

  // A number that is cut off is none.
  lemma EncodedCut(v: u64, cut: nat)
    requires cut < |Encoded(v)|
    ensures ReadUvarint(Encoded(v)[..cut]) == Failed(Truncated)
  {
    hide Spelled, Encoded, Pow128;
    EncodedShape(v);
    AtMostTen(v);
  }

  // The reverse fails on padded input, and on nothing else: bytes that end in a zero after the first are not what
  // the value read from them is encoded as.
  lemma RereadIsCanonical(src: seq<byte>)
    ensures match ReadUvarint(src)
            case Value(v, n) =>
              && 1 <= n <= |src| && n <= MAX_VARINT_LEN
              && (Encoded(v) == src[..n] <==> n == 1 || src[n - 1] != 0)
            case Failed(Truncated) => |src| < MAX_VARINT_LEN && forall j :: 0 <= j < |src| ==> src[j] >= 128
            case Failed(Overflow) => |src| >= MAX_VARINT_LEN && src[9] > 1 && forall j :: 0 <= j < 9 ==> src[j] >= 128
  {
    var k := Leading(src);
    if k >= 9 {
      if |src| > 9 && src[9] <= 1 {
        Canonical(src[..10]);
      }
    } else if k < |src| {
      Canonical(src[..k + 1]);
    }
  }

  lemma {:induction false} Canonical(bs: seq<byte>)
    requires bs != [] && bs[|bs| - 1] < 128 && forall j :: 0 <= j < |bs| - 1 ==> bs[j] >= 128
    ensures Encoded(Spelled(bs)) == bs <==> |bs| == 1 || bs[|bs| - 1] != 0
    ensures bs[|bs| - 1] != 0 ==> Spelled(bs) > 0
  {
    hide Encoded, Spelled, Leading, Pow128;
    if |bs| == 1 {
      assert bs == [bs[0]];
      OneByte(bs[0]);
    } else {
      var rest := bs[1..];
      assert rest[|rest| - 1] == bs[|bs| - 1] && bs == [bs[0]] + rest;
      Canonical(rest);
      Prepend(bs[0], rest);
      if bs[|bs| - 1] == 0 {
        EndsInZero(Spelled(bs));
      } else {
        EncodedPrepend(bs[0], Spelled(rest));
      }
    }
  }

  lemma {:induction false} EndsInZero(v: nat)
    ensures |Encoded(v)| > 1 ==> Encoded(v)[|Encoded(v)| - 1] != 0
  {
    if v >= 128 {
      EndsInZero(v / 128);
    }
  }

  // ---------- signed values ----------

  // Twice the value, with every bit flipped if it was negative.
  function ZigZag(v: i64): u64 {
    var shifted := 2 * v % TWO_TO_THE_64;
    if v < 0 then TWO_TO_THE_64 - 1 - shifted else shifted
  }

  // Half the code, with every bit flipped if it was odd.
  function UnZigZag(u: u64): i64 {
    var half := u / 2;
    if u % 2 == 1 then -1 - half else half
  }

  // A bijection that keeps small magnitudes small.
  lemma ZigZagIsBijection(v: i64, u: u64)
    ensures UnZigZag(ZigZag(v)) == v && ZigZag(UnZigZag(u)) == u
    ensures ZigZag(v) == if v >= 0 then 2 * v else -2 * v - 1
  {
    assert 2 * v % TWO_TO_THE_64 == if v < 0 then 2 * v + TWO_TO_THE_64 else 2 * v;
  }

  method AppendVarint(dst: seq<byte>, v: i64) returns (out: seq<byte>)
    ensures out == dst + Encoded(ZigZag(v))
  {
    out := AppendUvarint(dst, ZigZag(v));
  }

  function ReadVarint(src: seq<byte>): Read<i64> {
    match ReadUvarint(src)
    case Value(u, n) => Value(UnZigZag(u), n)
    case Failed(why) => Failed(why)
  }

  method Varint(src: seq<byte>) returns (r: Read<i64>)
    ensures r == ReadVarint(src)
  {
    var u := Uvarint(src);
    match u
    case Value(x, n) => r := Value(UnZigZag(x), n);
    case Failed(why) => r := Failed(why);
  }

  lemma VarintRoundTrip(v: i64, rest: seq<byte>)
    ensures ReadVarint(Encoded(ZigZag(v)) + rest) == Value(v, |Encoded(ZigZag(v))|)
  {
    UvarintRoundTrip(ZigZag(v), rest);
    ZigZagIsBijection(v, 0);
  }
}
