// Keys of internal/codec that sort as bytes the way their values sort as numbers. A float64 is its 64 bits, laid out
// as in section 3.4 of IEEE 754-2008: sign, eleven exponent bits, 52 fraction bits.
module KeyOrder {
  import opened Bytes
  import opened ByteOrder
  import opened Varint

  // v in n bytes, the high ones first.
  function BigEndian(v: nat, n: nat): (bs: seq<byte>)
    ensures |bs| == n
  {
    if n == 0 then [] else BigEndian(v / 256, n - 1) + [v % 256]
  }

  function FromBigEndian(bs: seq<byte>): nat {
    if bs == [] then 0 else 256 * FromBigEndian(bs[..|bs| - 1]) + bs[|bs| - 1]
  }

  function Pow256(n: nat): (p: nat)
    ensures p >= 1
  {
    if n == 0 then 1 else 256 * Pow256(n - 1)
  }

  lemma EightBytes()
    ensures Pow256(8) == TWO_TO_THE_64
  {
    assert Pow256(4) == 0x1_0000_0000;
    assert Pow256(8) == 0x1_0000_0000 * Pow256(4);
  }

  lemma {:induction false} BigEndianRoundTrip(v: nat, n: nat)
    requires v < Pow256(n)
    ensures FromBigEndian(BigEndian(v, n)) == v
  {
    if n > 0 {
      BigEndianRoundTrip(v / 256, n - 1);
      var bs := BigEndian(v, n);
      assert bs[..n - 1] == BigEndian(v / 256, n - 1);
    }
  }

  // Byte i is the digit of its place, to the base 256.
  lemma {:induction false} BigEndianDigit(v: nat, n: nat, i: nat)
    requires i < n
    ensures BigEndian(v, n)[i] == v / Pow256(n - 1 - i) % 256
  {
    if i < n - 1 {
      BigEndianDigit(v / 256, n - 1, i);
      DivTwice(v, 256, Pow256(n - 2 - i));
    }
  }

  lemma {:induction false} FromBigEndianBound(bs: seq<byte>)
    ensures FromBigEndian(bs) < Pow256(|bs|)
  {
    if bs != [] {
      FromBigEndianBound(bs[..|bs| - 1]);
    }
  }

  // Between strings of one length, the last byte decides only after all others.
  lemma {:induction false} LessSnoc(a: Key, x: byte, b: Key, y: byte)
    requires |a| == |b|
    ensures Less(a + [x], b + [y]) <==> Less(a, b) || (a == b && x < y)
  {
    if a == [] {
      assert a + [x] == [x] && b + [y] == [y] && [x][1..] == [] && [y][1..] == [];
    } else {
      assert (a + [x])[1..] == a[1..] + [x] && (b + [y])[1..] == b[1..] + [y];
      assert a == [a[0]] + a[1..] && b == [b[0]] + b[1..];
      LessSnoc(a[1..], x, b[1..], y);
    }
  }

  // Order of bytes is order of numbers.
  lemma {:induction false} BigEndianOrder(a: nat, b: nat, n: nat)
    requires a < Pow256(n) && b < Pow256(n)
    ensures Less(BigEndian(a, n), BigEndian(b, n)) <==> a < b
    ensures BigEndian(a, n) == BigEndian(b, n) <==> a == b
  {
    BigEndianRoundTrip(a, n);
    BigEndianRoundTrip(b, n);
    if n > 0 {
      hide Less;
      BigEndianOrder(a / 256, b / 256, n - 1);
      LessSnoc(BigEndian(a / 256, n - 1), a % 256, BigEndian(b / 256, n - 1), b % 256);
    }
  }

  // Within composite keys: what comes before two numbers does not matter to their order, and what comes after them
  // only matters when they are equal.
  lemma {:induction false} LessBeforeSuffix(a: Key, b: Key, s: Key, t: Key)
    requires |a| == |b|
    ensures Less(a + s, b + t) <==> Less(a, b) || (a == b && Less(s, t))
  {
    if a == [] {
      assert a + s == s && b + t == t;
    } else {
      assert (a + s)[1..] == a[1..] + s && (b + t)[1..] == b[1..] + t;
      assert a == [a[0]] + a[1..] && b == [b[0]] + b[1..];
      LessBeforeSuffix(a[1..], b[1..], s, t);
    }
  }

  // ---------- unsigned and signed integers ----------

  function KeyOfUint(v: u64): Key {
    BigEndian(v, 8)
  }

  function UintOfKey(src: seq<byte>): Read<u64> {
    if |src| < 8 then Failed(Truncated) else
      FromBigEndianBound(src[..8]);
      EightBytes();
      Value(FromBigEndian(src[..8]), 8)
  }

  lemma UintOrder(a: u64, b: u64)
    ensures Less(KeyOfUint(a), KeyOfUint(b)) <==> a < b
    ensures KeyOfUint(a) == KeyOfUint(b) <==> a == b
  {
    EightBytes();
    BigEndianOrder(a, b, 8);
  }

  lemma UintRoundTrip(v: u64, rest: seq<byte>)
    ensures UintOfKey(KeyOfUint(v) + rest) == Value(v, 8)
  {
    EightBytes();
    BigEndianRoundTrip(v, 8);
    assert (KeyOfUint(v) + rest)[..8] == KeyOfUint(v);
  }

  // Two's complement.
  function Bits(v: i64): u64 {
    if v < 0 then v + TWO_TO_THE_64 else v
  }

  function OfBits(u: u64): i64 {
    if u >= TWO_TO_THE_63 then u - TWO_TO_THE_64 else u
  }

  // Exclusive-or with the sign bit.
  function FlipSign(u: u64): u64 {
    if u >= TWO_TO_THE_63 then u - TWO_TO_THE_63 else u + TWO_TO_THE_63
  }

  function KeyOfInt(v: i64): Key {
    BigEndian(FlipSign(Bits(v)), 8)
  }

  function IntOfKey(src: seq<byte>): Read<i64> {
    match UintOfKey(src)
    case Failed(why) => Failed(why)
    case Value(u, n) => Value(OfBits(FlipSign(u)), n)
  }

  lemma IntOrder(a: i64, b: i64)
    ensures Less(KeyOfInt(a), KeyOfInt(b)) <==> a < b
    ensures KeyOfInt(a) == KeyOfInt(b) <==> a == b
  {
    UintOrder(FlipSign(Bits(a)), FlipSign(Bits(b)));
  }

  lemma IntRoundTrip(v: i64, rest: seq<byte>)
    ensures IntOfKey(KeyOfInt(v) + rest) == Value(v, 8)
  {
    UintRoundTrip(FlipSign(Bits(v)), rest);
  }

  lemma {:induction false} BytesRoundTrip(bs: seq<byte>)
    ensures BigEndian(FromBigEndian(bs), |bs|) == bs
  {
    if bs != [] {
      var n := |bs| - 1;
      BytesRoundTrip(bs[..n]);
      assert bs == bs[..n] + [bs[n]];
      LastDigit(FromBigEndian(bs[..n]), bs[n]);
    }
  }

  lemma LastDigit(v: nat, b: byte)
    ensures (256 * v + b) / 256 == v && (256 * v + b) % 256 == b
  {
  }

  // Any eight bytes are the key of the number read from them, and fewer are none.
  lemma AnyEightBytes(src: seq<byte>)
    ensures if |src| < 8 then UintOfKey(src) == IntOfKey(src) == FloatOfKey(src) == Failed(Truncated)
            else
              && UintOfKey(src).Value? && UintOfKey(src).n == 8 && KeyOfUint(UintOfKey(src).value) == src[..8]
              && IntOfKey(src).Value? && IntOfKey(src).n == 8 && KeyOfInt(IntOfKey(src).value) == src[..8]
  {
    if |src| >= 8 {
      BytesRoundTrip(src[..8]);
    }
  }

  // ---------- floating point ----------

  const TWO_TO_THE_52: int := 0x10_0000_0000_0000
  const QUIET_NAN: u64 := 0x7ff8_0000_0000_0001

  predicate Negative(f: u64) {
    f >= TWO_TO_THE_63
  }

  // The bits without the sign.
  function Unsigned(f: u64): (m: nat)
    ensures m < TWO_TO_THE_63
  {
    if Negative(f) then f - TWO_TO_THE_63 else f
  }

  function Exponent(m: nat): nat {
    m / TWO_TO_THE_52
  }

  function Fraction(m: nat): nat {
    m % TWO_TO_THE_52
  }

  predicate IsNaN(f: u64) {
    Exponent(Unsigned(f)) == 2047 && Fraction(Unsigned(f)) != 0
  }

  predicate IsZero(f: u64) {
    Unsigned(f) == 0
  }

  function Pow2(n: nat): nat {
    if n == 0 then 1 else 2 * Pow2(n - 1)
  }

  // The magnitude in units of the smallest subnormal; that of an infinity is above that of every finite number.
  function Magnitude(m: nat): nat {
    if Exponent(m) == 0 then Fraction(m) else (TWO_TO_THE_52 + Fraction(m)) * Pow2(Exponent(m) - 1)
  }

  // The value, exact, in the same units.
  function Value64(f: u64): int {
    var m: int := Magnitude(Unsigned(f));
    if Negative(f) then -m else m
  }

  // The numeric order of section 5.11, with all NaNs one key above everything else.
  predicate Before(a: u64, b: u64) {
    !IsNaN(a) && (IsNaN(b) || Value64(a) < Value64(b))
  }

  predicate Alike(a: u64, b: u64) {
    if IsNaN(a) then IsNaN(b) else !IsNaN(b) && Value64(a) == Value64(b)
  }

  // The one representative of its value: +0 for -0, one NaN for all.
  function Canonical64(f: u64): u64 {
    if IsZero(f) then 0 else if IsNaN(f) then QUIET_NAN else f
  }

  function KeyOfFloat(f: u64): Key {
    var b := Canonical64(f);
    BigEndian(if Negative(b) then TWO_TO_THE_64 - 1 - b else b + TWO_TO_THE_63, 8)
  }

  function FloatOfKey(src: seq<byte>): Read<u64> {
    match UintOfKey(src)
    case Failed(why) => Failed(why)
    case Value(b, n) => Value(if b >= TWO_TO_THE_63 then b - TWO_TO_THE_63 else TWO_TO_THE_64 - 1 - b, n)
  }

  lemma {:induction false} Pow2Positive(n: nat)
    ensures Pow2(n) >= 1
  {
    if n > 0 {
      Pow2Positive(n - 1);
    }
  }

  // The next bit pattern is the next number up.
  lemma MagnitudeNext(m: nat)
    ensures Magnitude(m) < Magnitude(m + 1)
  {
    var e, f := Exponent(m), Fraction(m);
    if f + 1 < TWO_TO_THE_52 {
      assert Exponent(m + 1) == e && Fraction(m + 1) == f + 1;
      if e > 0 {
        Pow2Positive(e - 1);
        MulNext(TWO_TO_THE_52 + f, Pow2(e - 1));
      }
    } else {
      assert Exponent(m + 1) == e + 1 && Fraction(m + 1) == 0;
      if e > 0 {
        Pow2Positive(e - 1);
        MulNext(TWO_TO_THE_52 + f, Pow2(e - 1));
        MulTwice(TWO_TO_THE_52, Pow2(e - 1));
      }
    }
  }

  lemma MulNext(x: nat, p: nat)
    requires p >= 1
    ensures (x + 1) * p > x * p
  {
  }

  lemma MulTwice(x: nat, p: nat)
    ensures (2 * x) * p == x * (2 * p)
  {
  }

  lemma {:induction false} MagnitudeOrder(a: nat, b: nat)
    requires a < b
    ensures Magnitude(a) < Magnitude(b)
    decreases b - a
  {
    hide Magnitude;
    MagnitudeNext(b - 1);
    if a < b - 1 {
      MagnitudeOrder(a, b - 1);
    }
  }

  // All NaN patterns are above infinity, the sole pattern with this exponent and no fraction.
  lemma NaNIsAbove(f: u64)
    ensures IsNaN(f) <==> Unsigned(f) > 2047 * TWO_TO_THE_52
  {
  }

  lemma ZeroIsSmallest(m: nat)
    ensures Magnitude(0) == 0 && (m > 0 ==> Magnitude(m) > 0)
  {
    if m > 0 {
      MagnitudeOrder(0, m);
    }
  }

  // Bytewise comparison of two keys is numeric comparison of the floats.
  lemma FloatOrder(a: u64, b: u64)
    ensures Less(KeyOfFloat(a), KeyOfFloat(b)) <==> Before(a, b)
    ensures KeyOfFloat(a) == KeyOfFloat(b) <==> Alike(a, b)
  {
    hide Less, Magnitude, BigEndian, IsNaN;
    var ca, cb := Canonical64(a), Canonical64(b);
    UintOrder(if Negative(ca) then TWO_TO_THE_64 - 1 - ca else ca + TWO_TO_THE_63,
              if Negative(cb) then TWO_TO_THE_64 - 1 - cb else cb + TWO_TO_THE_63);
    NaNIsAbove(a);
    NaNIsAbove(b);
    var ma, mb := Unsigned(a), Unsigned(b);
    ZeroIsSmallest(ma);
    ZeroIsSmallest(mb);
    if ma < mb {
      MagnitudeOrder(ma, mb);
    } else if mb < ma {
      MagnitudeOrder(mb, ma);
    }
  }

  // Decoding gives the float back, up to the sign of zero and the choice of NaN.
  lemma FloatRoundTrip(f: u64, rest: seq<byte>)
    ensures FloatOfKey(KeyOfFloat(f) + rest) == Value(Canonical64(f), 8)
    ensures Alike(Canonical64(f), f)
    ensures Canonical64(f) == if IsNaN(f) then 0x7ff8_0000_0000_0001 else if f == 0x8000_0000_0000_0000 then 0 else f
  {
    hide BigEndian, Magnitude;
    var b := Canonical64(f);
    UintRoundTrip(if Negative(b) then TWO_TO_THE_64 - 1 - b else b + TWO_TO_THE_63, rest);
    ZeroIsSmallest(0);
  }

  // The bits of a float with its sign bit set, or all of them flipped if it was set already; the two zeros share one
  // key, and so do all NaNs.
  lemma FloatKeyMeans(f: u64)
    ensures IsNaN(f) <==> f % 0x8000_0000_0000_0000 > 0x7ff0_0000_0000_0000
    ensures KeyOfFloat(f) ==
            if f % 0x8000_0000_0000_0000 > 0x7ff0_0000_0000_0000 then [0xff, 0xf8, 0, 0, 0, 0, 0, 1]
            else if f % 0x8000_0000_0000_0000 == 0 then [0x80, 0, 0, 0, 0, 0, 0, 0]
            else if f < 0x8000_0000_0000_0000 then BigEndian(0x8000_0000_0000_0000 + f, 8)
            else BigEndian(0xffff_ffff_ffff_ffff - f, 8)
  {
    NaNIsAbove(f);
    assert Unsigned(f) == f % 0x8000_0000_0000_0000;
    hide BigEndian, IsNaN, Magnitude;
    KeyOfNaN();
    KeyOfZero();
  }

  lemma KeyOfNaN()
    ensures BigEndian(0xfff8_0000_0000_0001, 8) == [0xff, 0xf8, 0, 0, 0, 0, 0, 1]
  {
  }

  lemma KeyOfZero()
    ensures BigEndian(0x8000_0000_0000_0000, 8) == [0x80, 0, 0, 0, 0, 0, 0, 0]
  {
  }

  // Any eight bytes are read as a float, by undoing just that.
  lemma AnyFloatBytes(src: seq<byte>)
    requires |src| >= 8
    ensures FloatOfKey(src).Value? && FloatOfKey(src).n == 8
    ensures var f := FloatOfKey(src).value;
            src[..8] == BigEndian(if f < 0x8000_0000_0000_0000 then 0x8000_0000_0000_0000 + f
                                  else 0xffff_ffff_ffff_ffff - f, 8)
  {
    AnyEightBytes(src);
  }

  // Up to the smallest numbers with full precision a pattern is its own magnitude; from there on, one more in the
  // exponent doubles it.
  lemma MagnitudeMeans(m: nat)
    ensures m < 0x20_0000_0000_0000 ==> Magnitude(m) == m
    ensures m >= 0x10_0000_0000_0000 ==> Magnitude(m + 0x10_0000_0000_0000) == 2 * Magnitude(m)
  {
    if m >= TWO_TO_THE_52 {
      assert Exponent(m + TWO_TO_THE_52) == Exponent(m) + 1 && Fraction(m + TWO_TO_THE_52) == Fraction(m);
      var x, e := TWO_TO_THE_52 + Fraction(m), Exponent(m) - 1;
      assert Pow2(e + 1) == 2 * Pow2(e);
      MulTwice(x, Pow2(e));
      DoubleOver(x, Pow2(e));
    }
  }

  lemma DoubleOver(x: nat, p: nat)
    ensures x * (2 * p) == 2 * (x * p)
  {
  }
}
